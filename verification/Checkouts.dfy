/** Editing a checkout one node at a time.  The store offers lookups, listings,
    removal of leaves and empty directories, and creation below an existing
    directory; subtree removal and subtree copies are loops over an explicit
    stack on top of that. */
module Checkouts {
  import opened Paths
  import opened Trees
  import opened Writing

  /** What an entry writes: a file, or whatever a generation holds. */
  datatype Source = FileContent(bytes: string) | FromGeneration(generation: Tree)

  function EntryFor(p: Path, s: Source): Entry {
    match s
    case FileContent(bytes) => FileEntry(p, bytes)
    case FromGeneration(generation) => Entry(p, generation)
  }

  function Parent(p: Path): Path
    requires p != []
  {
    p[..|p| - 1]
  }

  ghost predicate IsChildList(t: Tree, p: Path, names: seq<Name>) {
    (forall n :: n in names <==> p + [n] in t) && (forall i, j :: 0 <= i < j < |names| ==> names[i] != names[j])
  }

  predicate CanCreate(t: Tree, p: Path) {
    p != [] && p !in t && (|p| == 1 || Get(t, Parent(p)) == Some(Dir))
  }

  /** Nothing strictly beneath `p`. */
  ghost predicate NothingBelow(t: Tree, p: Path) {
    forall q :: q in t && StartsWith(q, p) ==> q == p
  }

  /** One stack frame of `remove_subtree`. */
  datatype Frame = Frame(path: Path, expanded: bool)

  ghost predicate Pending(f: Frame, p: Path) {
    if f.expanded then p == f.path else StartsWith(p, f.path)
  }

  ghost predicate PendingAfter(stack: seq<Frame>, i: int, p: Path) {
    exists j :: i < j < |stack| && 0 <= j && Pending(stack[j], p)
  }

  /** What still has to go is exactly what the stack stands for, and whatever
      is left beneath an expanded directory stands above it on the stack. */
  ghost predicate Removing(before: Tree, root: Path, now: Tree, stack: seq<Frame>) {
    root != [] && WellFormed(now) &&
    (forall p :: !StartsWith(p, root) ==> Get(now, p) == Get(before, p)) &&
    (forall p {:trigger PendingAfter(stack, -1, p)} ::
       p in now && StartsWith(p, root) ==> PendingAfter(stack, -1, p)) &&
    (forall i :: 0 <= i < |stack| ==>
       StartsWith(stack[i].path, root) && (stack[i].expanded ==> stack[i].path in now)) &&
    (forall i, p {:trigger PendingAfter(stack, i, p)} :: 0 <= i < |stack| && stack[i].expanded ==>
      p in now && StartsWith(p, stack[i].path) && p != stack[i].path ==> PendingAfter(stack, i, p)) &&
    Apart(stack)
  }

  ghost predicate Apart(stack: seq<Frame>) {
    forall i, j :: 0 <= i < j < |stack| ==>
      !StartsWith(stack[i].path, stack[j].path) && (!stack[i].expanded ==> !StartsWith(stack[j].path, stack[i].path))
  }

  ghost function Unvisited(t: Tree, stack: seq<Frame>): set<Path> {
    set p | p in t && forall i :: 0 <= i < |stack| && stack[i].expanded ==> stack[i].path != p
  }

  lemma LeafRemovalKeepsShape(t: Tree, p: Path)
    requires WellFormed(t) && NothingBelow(t, p)
    ensures WellFormed(t - {p})
  {
    forall q, a | q in t - {p} && ProperAncestor(a, q) ensures a in t - {p} && (t - {p})[a] == Dir {
      assert q in t;
      assert StartsWith(q, a);
    }
  }

  lemma StillPending(stack: seq<Frame>, i: int, p: Path)
    requires stack != [] && PendingAfter(stack, i, p) && !Pending(stack[|stack| - 1], p)
    ensures PendingAfter(stack[..|stack| - 1], i, p)
  {
    var j :| i < j < |stack| && 0 <= j && Pending(stack[j], p);
    assert stack[..|stack| - 1][j] == stack[j];
  }

  lemma PoppedExpanded(before: Tree, root: Path, now: Tree, stack: seq<Frame>)
    requires Removing(before, root, now, stack) && stack != [] && stack[|stack| - 1].expanded
    ensures var k := |stack| - 1;
            stack[k].path in now && NothingBelow(now, stack[k].path) &&
            Removing(before, root, now - {stack[k].path}, stack[..k])
  {
    var k := |stack| - 1;
    var gone, rest := stack[k].path, stack[..k];
    var next := now - {gone};
    forall q | q in now && StartsWith(q, gone) ensures q == gone {
      assert q != gone ==> PendingAfter(stack, k, q);
    }
    LeafRemovalKeepsShape(now, gone);
    forall p | p in next && StartsWith(p, root) ensures PendingAfter(rest, -1, p) {
      assert PendingAfter(stack, -1, p);
      StillPending(stack, -1, p);
    }
    forall i, p | 0 <= i < k && rest[i].expanded && p in next && StartsWith(p, rest[i].path) && p != rest[i].path
      ensures PendingAfter(rest, i, p)
    {
      assert PendingAfter(stack, i, p);
      StillPending(stack, i, p);
    }
  }

  lemma PoppedExpandedMeasure(now: Tree, stack: seq<Frame>)
    requires stack != [] && stack[|stack| - 1].expanded
    ensures var k := |stack| - 1;
            Unvisited(now - {stack[k].path}, stack[..k]) == Unvisited(now, stack)
  {
    var k := |stack| - 1;
    var gone, rest := stack[k].path, stack[..k];
    forall p ensures p in Unvisited(now - {gone}, rest) <==> p in Unvisited(now, stack) {
      if p in now && p != gone {
        assert forall i :: 0 <= i < k ==> rest[i] == stack[i];
      }
    }
  }

  lemma PoppedAbsent(before: Tree, root: Path, now: Tree, stack: seq<Frame>)
    requires Removing(before, root, now, stack) && stack != []
    requires !stack[|stack| - 1].expanded && stack[|stack| - 1].path !in now
    ensures var k := |stack| - 1;
            Removing(before, root, now, stack[..k]) && Unvisited(now, stack[..k]) == Unvisited(now, stack)
  {
    var k := |stack| - 1;
    var rest := stack[..k];
    forall i, p | -1 <= i < k && p in now && PendingAfter(stack, i, p) ensures PendingAfter(rest, i, p) {
      var j :| i < j < |stack| && 0 <= j && Pending(stack[j], p);
      if j == k {
        assert StartsWith(p, root) && root != [];
        NothingBelowLeaves(now, stack[k].path, p);
      }
      assert rest[j] == stack[j];
    }
    forall p | p in now && StartsWith(p, root) ensures PendingAfter(rest, -1, p) {
      assert PendingAfter(stack, -1, p);
    }
    forall i, p | 0 <= i < k && rest[i].expanded && p in now && StartsWith(p, rest[i].path) && p != rest[i].path
      ensures PendingAfter(rest, i, p)
    {
      assert PendingAfter(stack, i, p);
    }
    forall p ensures p in Unvisited(now, rest) <==> p in Unvisited(now, stack) {
      assert forall i :: 0 <= i < k ==> rest[i] == stack[i];
    }
  }

  function ChildFrames(p: Path, names: seq<Name>): (r: seq<Frame>)
    ensures |r| == |names| && forall i :: 0 <= i < |r| ==> r[i] == Frame(p + [names[i]], false)
  {
    seq(|names|, i requires 0 <= i < |names| => Frame(p + [names[i]], false))
  }

  /** Everything beneath a directory is at or beneath one of its children. */
  lemma ChildAbove(t: Tree, p: Path, names: seq<Name>, q: Path) returns (i: nat)
    requires WellFormed(t) && IsChildList(t, p, names)
    requires q in t && StartsWith(q, p) && q != p
    ensures i < |names| && StartsWith(q, p + [names[i]])
  {
    var c := q[..|p| + 1];
    assert c == p + [q[|p|]];
    assert StartsWith(q, c);
    if c != q { assert ProperAncestor(c, q); }
    assert q[|p|] in names;
    i :| 0 <= i < |names| && names[i] == q[|p|];
  }

  lemma ChildrenStayApart(p: Path, n: Name, s: Path)
    ensures StartsWith(s, p + [n]) ==> StartsWith(s, p)
    ensures StartsWith(p + [n], s) ==> StartsWith(p, s) || s == p + [n]
  {
    if StartsWith(p + [n], s) && |s| <= |p| {
      assert s == (p + [n])[..|s|] == p[..|s|];
    }
  }

  function Expand(stack: seq<Frame>, p: Path, names: seq<Name>): seq<Frame> {
    stack + [Frame(p, true)] + ChildFrames(p, names)
  }

  lemma ExpandedStaysApart(rest: seq<Frame>, p: Path, names: seq<Name>)
    requires Apart(rest + [Frame(p, false)])
    requires forall i, j :: 0 <= i < j < |names| ==> names[i] != names[j]
    ensures Apart(Expand(rest, p, names))
  {
    var next := Expand(rest, p, names);
    var was := rest + [Frame(p, false)];
    var k := |rest|;
    forall i, j | 0 <= i < j < |next|
      ensures !StartsWith(next[i].path, next[j].path) && (!next[i].expanded ==> !StartsWith(next[j].path, next[i].path))
    {
      if i < k {
        assert was[i] == next[i] == rest[i];
        if j < k {
          assert was[j] == next[j] == rest[j];
        } else {
          assert was[k].path == p;
          if j > k { ChildrenStayApart(p, names[j - k - 1], next[i].path); }
        }
      } else if i > k {
        assert next[i].path[|p|] == names[i - k - 1] && next[j].path[|p|] == names[j - k - 1];
      }
    }
  }

  lemma ExpandedCovers(rest: seq<Frame>, now: Tree, p: Path, names: seq<Name>, i: int, q: Path)
    requires WellFormed(now) && IsChildList(now, p, names) && q in now && -1 <= i < |rest|
    requires PendingAfter(rest + [Frame(p, false)], i, q)
    ensures PendingAfter(Expand(rest, p, names), i, q)
  {
    var was, next := rest + [Frame(p, false)], Expand(rest, p, names);
    var j :| i < j < |was| && 0 <= j && Pending(was[j], q);
    if j < |rest| {
      assert next[j] == was[j];
    } else if q == p {
      assert next[|rest|] == Frame(p, true);
    } else {
      var c := ChildAbove(now, p, names, q);
      assert next[|rest| + 1 + c] == Frame(p + [names[c]], false);
      assert Pending(next[|rest| + 1 + c], q);
    }
  }

  lemma ExpandedIsPending(before: Tree, root: Path, now: Tree, rest: seq<Frame>, p: Path, names: seq<Name>)
    requires Removing(before, root, now, rest + [Frame(p, false)]) && IsChildList(now, p, names)
    ensures forall i, q {:trigger PendingAfter(Expand(rest, p, names), i, q)} ::
      0 <= i < |Expand(rest, p, names)| && Expand(rest, p, names)[i].expanded ==>
      q in now && StartsWith(q, Expand(rest, p, names)[i].path) && q != Expand(rest, p, names)[i].path ==>
      PendingAfter(Expand(rest, p, names), i, q)
  {
    var was, next := rest + [Frame(p, false)], Expand(rest, p, names);
    var k := |rest|;
    forall i, q | 0 <= i < |next| && next[i].expanded && q in now && StartsWith(q, next[i].path) && q != next[i].path
      ensures PendingAfter(next, i, q)
    {
      if i < k {
        assert was[i] == next[i];
        assert PendingAfter(was, i, q);
        ExpandedCovers(rest, now, p, names, i, q);
      } else {
        var c := ChildAbove(now, p, names, q);
        assert next[k + 1 + c] == Frame(p + [names[c]], false);
        assert Pending(next[k + 1 + c], q);
      }
    }
  }

  lemma Expanded(before: Tree, root: Path, now: Tree, rest: seq<Frame>, p: Path, names: seq<Name>)
    requires Removing(before, root, now, rest + [Frame(p, false)]) && p in now && IsChildList(now, p, names)
    ensures Removing(before, root, now, Expand(rest, p, names))
  {
    var was, next := rest + [Frame(p, false)], Expand(rest, p, names);
    var k := |rest|;
    ExpandedStaysApart(rest, p, names);
    forall q | q in now && StartsWith(q, root) ensures PendingAfter(next, -1, q) {
      assert PendingAfter(was, -1, q);
      ExpandedCovers(rest, now, p, names, -1, q);
    }
    ExpandedIsPending(before, root, now, rest, p, names);
    forall i | 0 <= i < |next| ensures StartsWith(next[i].path, root) && (next[i].expanded ==> next[i].path in now) {
      if i < k {
        assert was[i] == next[i];
      } else {
        assert StartsWith(was[k].path, root);
      }
    }
  }

  lemma ExpandedMeasure(now: Tree, rest: seq<Frame>, p: Path, names: seq<Name>)
    requires Apart(rest + [Frame(p, false)]) && p in now
    ensures Unvisited(now, Expand(rest, p, names)) < Unvisited(now, rest + [Frame(p, false)])
  {
    var was, next := rest + [Frame(p, false)], Expand(rest, p, names);
    var k := |rest|;
    assert was[k] == Frame(p, false) && next[k] == Frame(p, true);
    forall q | q in Unvisited(now, next) ensures q in Unvisited(now, was) && q != p {
      forall i | 0 <= i < |was| && was[i].expanded ensures was[i].path != q {
        assert i < k && next[i] == was[i];
      }
    }
    forall i | 0 <= i < |was| && was[i].expanded ensures was[i].path != p {
      assert !StartsWith(was[i].path, was[k].path);
    }
    assert p in Unvisited(now, was) && p !in Unvisited(now, next);
  }

  // -------------------------------------------------------------------------
  // Copying a subtree
  // -------------------------------------------------------------------------

  predicate ParentReady(t: Tree, p: Path) {
    p != [] && (|p| == 1 || Get(t, Parent(p)) == Some(Dir))
  }

  ghost predicate Vacant(t: Tree, p: Path) {
    forall q :: q in t ==> !StartsWith(q, p)
  }

  ghost predicate Queued(queue: seq<Path>, p: Path) {
    exists j :: 0 <= j < |queue| && StartsWith(p, queue[j])
  }

  ghost predicate Spread(queue: seq<Path>) {
    forall i, j :: 0 <= i < j < |queue| ==> !Comparable(queue[i], queue[j])
  }

  /** What is at `root` so far is part of the source, the rest of the source is
      queued, and every queued path is vacant with its directory in place. */
  ghost predicate Copying(before: Tree, src: Tree, root: Path, now: Tree, queue: seq<Path>) {
    root != [] && WellFormed(now) && WellFormed(src) &&
    (forall p :: !StartsWith(p, root) ==> Get(now, p) == Get(before, p)) &&
    (forall p :: p in now && StartsWith(p, root) ==> Get(src, p) == Get(now, p)) &&
    (forall p {:trigger Queued(queue, p)} :: p in src && StartsWith(p, root) && p !in now ==> Queued(queue, p)) &&
    (forall i :: 0 <= i < |queue| ==>
      StartsWith(queue[i], root) && Vacant(now, queue[i]) && (queue[i] in src ==> ParentReady(now, queue[i]))) &&
    Spread(queue)
  }

  ghost function Uncopied(src: Tree, root: Path, now: Tree): set<Path> {
    set p | p in src && StartsWith(p, root) && p !in now
  }

  lemma CopyIsDone(before: Tree, src: Tree, root: Path, now: Tree)
    requires Copying(before, src, root, now, [])
    ensures now == Replace(before, src, root)
  {
    forall p ensures Get(now, p) == Get(Replace(before, src, root), p) {
      ReplaceAt(before, src, root, p);
      assert !Queued([], p);
    }
    TreesAgree(now, Replace(before, src, root));
  }

  lemma CopySkips(before: Tree, src: Tree, root: Path, now: Tree, rest: seq<Path>, q: Path)
    requires Copying(before, src, root, now, rest + [q]) && q !in src
    ensures Copying(before, src, root, now, rest)
  {
    var was := rest + [q];
    assert was[|rest|] == q && forall i :: 0 <= i < |rest| ==> was[i] == rest[i];
    forall p | p in src && StartsWith(p, root) && p !in now ensures Queued(rest, p) {
      assert Queued(was, p);
      var j :| 0 <= j < |was| && StartsWith(p, was[j]);
      if j == |rest| {
        NothingBelowLeaves(src, q, p);
      } else {
        assert rest[j] == was[j];
      }
    }
  }

  lemma AncestorsReady(t: Tree, p: Path, a: Path)
    requires WellFormed(t) && ParentReady(t, p) && ProperAncestor(a, p)
    ensures Get(t, a) == Some(Dir)
  {
    if a != Parent(p) {
      assert StartsWith(Parent(p), a) by { assert Parent(p)[..|a|] == p[..|a|]; }
      assert ProperAncestor(a, Parent(p));
    }
  }

  lemma CreateKeepsShape(t: Tree, p: Path, n: Node)
    requires WellFormed(t) && ParentReady(t, p) && Vacant(t, p)
    ensures WellFormed(t[p := n])
  {
    forall q, a | q in t[p := n] && ProperAncestor(a, q) ensures a in t[p := n] && t[p := n][a] == Dir {
      if q == p {
        AncestorsReady(t, p, a);
      } else {
        assert q in t;
        assert StartsWith(q, a) && !StartsWith(q, p);
      }
    }
  }

  function ChildPaths(p: Path, names: seq<Name>): (r: seq<Path>)
    ensures |r| == |names| && forall i :: 0 <= i < |r| ==> r[i] == p + [names[i]]
  {
    seq(|names|, i requires 0 <= i < |names| => p + [names[i]])
  }

  lemma SpreadWithChildren(rest: seq<Path>, q: Path, names: seq<Name>)
    requires Spread(rest + [q]) && forall i, j :: 0 <= i < j < |names| ==> names[i] != names[j]
    ensures Spread(rest + ChildPaths(q, names))
  {
    var was, next := rest + [q], rest + ChildPaths(q, names);
    forall i, j | 0 <= i < j < |next| ensures !Comparable(next[i], next[j]) {
      if i < |rest| {
        assert was[i] == next[i];
        if j < |rest| {
          assert was[j] == next[j];
        } else {
          assert was[|rest|] == q;
          ChildrenStayApart(q, names[j - |rest|], next[i]);
        }
      } else {
        assert next[i][|q|] == names[i - |rest|] && next[j][|q|] == names[j - |rest|];
      }
    }
  }

  lemma CopyKeepsQueueReady(src: Tree, now: Tree, rest: seq<Path>, q: Path, names: seq<Name>, i: nat)
    requires q in src && q != [] && Vacant(now, q) && Spread(rest + [q])
    requires src[q] == Dir || names == []
    requires forall k :: 0 <= k < |rest| ==> Vacant(now, rest[k]) && (rest[k] in src ==> ParentReady(now, rest[k]))
    requires i < |rest + ChildPaths(q, names)|
    ensures var next := rest + ChildPaths(q, names);
            Vacant(now[q := src[q]], next[i]) && (next[i] in src ==> ParentReady(now[q := src[q]], next[i]))
  {
    var was, next := rest + [q], rest + ChildPaths(q, names);
    assert was[|rest|] == q;
    if i < |rest| {
      assert was[i] == rest[i] == next[i];
      assert !Comparable(was[i], was[|rest|]);
      assert ParentReady(now, rest[i]) && |rest[i]| > 1 ==> Parent(rest[i]) != q;
    } else {
      assert next[i] == q + [names[i - |rest|]];
      assert Parent(next[i]) == q;
    }
  }

  lemma CopiedRest(before: Tree, src: Tree, root: Path, now: Tree, rest: seq<Path>, q: Path, names: seq<Name>, p: Path)
    requires Copying(before, src, root, now, rest + [q]) && q in src && IsChildList(src, q, names)
    requires p in src && StartsWith(p, root) && p !in now && p != q
    ensures Queued(rest + ChildPaths(q, names), p)
  {
    var was, next := rest + [q], rest + ChildPaths(q, names);
    assert Queued(was, p);
    var j :| 0 <= j < |was| && StartsWith(p, was[j]);
    if j < |rest| {
      assert next[j] == was[j];
    } else {
      var c := ChildAbove(src, q, names, p);
      assert next[|rest| + c] == q + [names[c]];
    }
  }

  /** Creating one node and queueing its children keeps the copy on course. */
  lemma CopyAdvances(before: Tree, src: Tree, root: Path, now: Tree, rest: seq<Path>, q: Path, names: seq<Name>)
    requires Copying(before, src, root, now, rest + [q]) && q in src && IsChildList(src, q, names)
    ensures CanCreate(now, q)
    ensures Copying(before, src, root, now[q := src[q]], rest + ChildPaths(q, names))
    ensures Uncopied(src, root, now[q := src[q]]) < Uncopied(src, root, now)
  {
    var was, next := rest + [q], rest + ChildPaths(q, names);
    assert was[|rest|] == q && forall i :: 0 <= i < |rest| ==> was[i] == rest[i];
    if src[q] != Dir && names != [] {
      assert names[0] in names;
      NothingBelowLeaves(src, q, q + [names[0]]);
    }
    CreateKeepsShape(now, q, src[q]);
    SpreadWithChildren(rest, q, names);
    var later := now[q := src[q]];
    forall p | p in src && StartsWith(p, root) && p !in later ensures Queued(next, p) {
      CopiedRest(before, src, root, now, rest, q, names, p);
    }
    forall i | 0 <= i < |next|
      ensures StartsWith(next[i], root) && Vacant(later, next[i]) && (next[i] in src ==> ParentReady(later, next[i]))
    {
      CopyKeepsQueueReady(src, now, rest, q, names, i);
    }
    assert q in Uncopied(src, root, now) && q !in Uncopied(src, root, later);
  }

  lemma ChildlessLeaf(t: Tree, p: Path)
    requires WellFormed(t) && p in t && t[p] != Dir
    ensures IsChildList(t, p, [])
  {
    forall n: Name ensures p + [n] !in t {
      NothingBelowLeaves(t, p, p + [n]);
    }
  }

  // -------------------------------------------------------------------------
  // The checkout
  // -------------------------------------------------------------------------

  /** The names in a directory of `t`, in no particular order. */
  method ListIn(t: Tree, p: Path) returns (names: seq<Name>)
    ensures IsChildList(t, p, names)
  {
    names := [];
    var children := set q | q in t && |q| == |p| + 1 && StartsWith(q, p);
    var todo := children;
    while todo != {}
      invariant todo <= children
      invariant forall n :: n in names <==> p + [n] in children - todo
      invariant forall i, j :: 0 <= i < j < |names| ==> names[i] != names[j]
      decreases |todo|
    {
      var q :| q in todo;
      assert q == p + [q[|p|]];
      names := names + [q[|p|]];
      todo := todo - {q};
    }
  }

  lemma RemovalIsDone(before: Tree, root: Path, now: Tree)
    requires Removing(before, root, now, [])
    ensures now == Replace(before, map[], root)
  {
    forall p ensures Get(now, p) == Get(Replace(before, map[], root), p) {
      ReplaceAt(before, map[], root, p);
      assert !PendingAfter([], -1, p);
    }
    TreesAgree(now, Replace(before, map[], root));
  }

  lemma MakeNoParents(t: Tree, p: Path)
    requires p != []
    ensures MakeParents(t, p[..1]) == t
  {
    forall q ensures Get(MakeParents(t, p[..1]), q) == Get(t, q) {
      MakeParentsAt(t, p[..1], q);
    }
    TreesAgree(MakeParents(t, p[..1]), t);
  }

  /** One round of `ensure_parents`. */
  lemma ParentStep(before: Tree, p: Path, depth: nat)
    requires WellFormed(before) && 1 <= depth < |p|
    ensures !ParentBlocked(before, p) ==>
      var now := MakeParents(before, p[..depth]);
      MakeParents(before, p[..depth + 1]) == (if p[..depth] in now then now else now[p[..depth] := Dir]) &&
      (p[..depth] !in now ==> CanCreate(now, p[..depth]) && (WellFormed(now) ==> WellFormed(now[p[..depth] := Dir])))
    ensures ParentBlocked(before, p) && p[..depth] !in before ==> !CanCreate(before, p[..depth])
  {
    var d := p[..depth];
    if ParentBlocked(before, p) {
      if d !in before {
        BlockedAbove(before, p, depth);
      }
    } else {
      var now := MakeParents(before, d);
      var next := MakeParents(before, p[..depth + 1]);
      forall q ensures Get(next, q) == Get(if d in now then now else now[d := Dir], q) {
        MakeParentsAt(before, d, q);
        MakeParentsAt(before, p[..depth + 1], q);
        if ProperAncestor(q, p[..depth + 1]) && q != d {
          assert q == p[..|q|] == d[..|q|];
        }
        if ProperAncestor(q, d) {
          assert q == p[..|q|];
        }
      }
      TreesAgree(next, if d in now then now else now[d := Dir]);
      if d !in now {
        ParentMade(before, p, depth);
        assert Vacant(now, d) by {
          forall q | q in now ensures !StartsWith(q, d) {
            MakeParentsAt(before, d, q);
            if q in before && StartsWith(q, d) { NothingBelowLeaves(before, d, q); }
          }
        }
        if WellFormed(now) {
          CreateKeepsShape(now, d, Dir);
        }
      }
    }
  }

  lemma ParentMade(before: Tree, p: Path, depth: nat)
    requires 1 <= depth < |p| && !ParentBlocked(before, p)
    ensures ParentReady(MakeParents(before, p[..depth]), p[..depth])
  {
    var d := p[..depth];
    if depth > 1 {
      var a := Parent(d);
      assert a == p[..depth - 1];
      assert ProperAncestor(a, d) && ProperAncestor(a, p);
      MakeParentsAt(before, d, a);
      assert a in ParentSet(p);
    }
  }

  lemma BlockedAbove(before: Tree, p: Path, depth: nat)
    requires WellFormed(before) && 1 <= depth < |p| && ParentBlocked(before, p) && p[..depth] !in before
    ensures !CanCreate(before, p[..depth])
  {
    var a :| a in ParentSet(p) && a in before && before[a] != Dir;
    assert a == p[..|a|];
    var d := p[..depth];
    if |a| > depth {
      assert ProperAncestor(d, a) by { assert d == a[..depth]; }
    } else if |a| < depth - 1 {
      var c := Parent(d);
      assert c == p[..depth - 1] && StartsWith(c, a) by { assert c[..|a|] == a; }
      NothingBelowLeaves(before, a, c);
    } else {
      assert |a| != depth;
      assert a == Parent(d);
    }
  }

  lemma AbsentAbove(t: Tree, p: Path, depth: nat)
    requires WellFormed(t) && 1 <= depth < |p| && p[..depth] !in t
    ensures Parent(p) !in t
  {
    if depth < |p| - 1 {
      assert ProperAncestor(p[..depth], Parent(p));
    }
  }

  lemma BlockedIsNotReady(t: Tree, p: Path)
    requires WellFormed(t) && p != [] && ParentBlocked(t, p)
    ensures !ParentReady(t, p) && Vacant(t, p)
  {
    var a :| a in ParentSet(p) && a in t && t[a] != Dir;
    if ParentReady(t, p) {
      AncestorsReady(t, p, a);
    }
    forall q | q in t ensures !StartsWith(q, p) {
      if StartsWith(q, p) {
        assert StartsWith(q, a);
        NothingBelowLeaves(t, a, q);
      }
    }
  }

  lemma VacantIsCleared(t: Tree, p: Path)
    requires Vacant(t, p)
    ensures Replace(t, map[], p) == t
  {
    forall q ensures Get(Replace(t, map[], p), q) == Get(t, q) {
      ReplaceAt(t, map[], p, q);
    }
    TreesAgree(Replace(t, map[], p), t);
  }

  lemma ParentsMadeAreReady(t: Tree, p: Path)
    requires p != [] && !ParentBlocked(t, p)
    ensures ParentReady(MakeParents(t, p), p)
  {
    if |p| > 1 {
      assert ProperAncestor(Parent(p), p);
      MakeParentsAt(t, p, Parent(p));
      assert Parent(p) in ParentSet(p);
    }
  }

  lemma ClearedStaysVacant(t: Tree, p: Path)
    ensures Vacant(Replace(t, map[], p), p) && Vacant(MakeParents(Replace(t, map[], p), p), p)
  {
    forall q | StartsWith(q, p) ensures q !in Replace(t, map[], p) && q !in MakeParents(Replace(t, map[], p), p) {
      ReplaceAt(t, map[], p, q);
      MakeParentsAt(Replace(t, map[], p), p, q);
    }
  }

  lemma CreatingIsReplacing(t: Tree, p: Path, n: Node)
    requires Vacant(t, p)
    ensures t[p := n] == Replace(t, map[p := n], p)
  {
    forall q ensures Get(t[p := n], q) == Get(Replace(t, map[p := n], p), q) {
      ReplaceAt(t, map[p := n], p, q);
    }
    TreesAgree(t[p := n], Replace(t, map[p := n], p));
  }

  /** A writable checkout: the store's operations on single nodes, and the
      engine's edits on top of them. */
  class Checkout {
    var nodes: Tree

    constructor (t: Tree)
      ensures nodes == t
    {
      nodes := t;
    }

    /** The names in a directory, in no particular order. */
    method ListChildren(p: Path) returns (names: seq<Name>)
      ensures IsChildList(nodes, p, names)
    {
      names := ListIn(nodes, p);
    }

    /** Refuses an absent path and a directory that is not empty. */
    method Remove(p: Path) returns (ok: bool)
      modifies this
      ensures ok <==> p in old(nodes) && NothingBelow(old(nodes), p)
      ensures nodes == if ok then old(nodes) - {p} else old(nodes)
    {
      ok := p in nodes && forall q :: q in nodes && StartsWith(q, p) ==> q == p;
      if ok {
        nodes := nodes - {p};
      }
    }

    /** Refuses an existing path and a path whose directory is missing. */
    method Create(p: Path, n: Node) returns (ok: bool)
      modifies this
      ensures ok <==> CanCreate(old(nodes), p)
      ensures nodes == if ok then old(nodes)[p := n] else old(nodes)
    {
      ok := CanCreate(nodes, p);
      if ok {
        nodes := nodes[p := n];
      }
    }

    /** Removes a path with everything beneath it; an absent one is fine.  It
        only ever removes a leaf or an emptied directory, so it never fails. */
    method RemoveSubtree(root: Path) returns (ok: bool)
      requires WellFormed(nodes) && root != []
      modifies this
      ensures ok && nodes == Replace(old(nodes), map[], root)
      ensures WellFormed(nodes)
    {
      ghost var before := nodes;
      var stack := [Frame(root, false)];
      forall p | p in nodes && StartsWith(p, root) ensures PendingAfter(stack, -1, p) {
        assert Pending(stack[0], p);
      }
      while stack != []
        invariant Removing(before, root, nodes, stack)
        decreases Unvisited(nodes, stack), |stack|
      {
        var top, rest := stack[|stack| - 1], stack[..|stack| - 1];
        assert stack == rest + [top];
        if top.expanded {
          PoppedExpanded(before, root, nodes, stack);
          PoppedExpandedMeasure(nodes, stack);
          var removed := Remove(top.path);
          stack := rest;
        } else if top.path !in nodes {
          PoppedAbsent(before, root, nodes, stack);
          stack := rest;
        } else {
          var children: seq<Name> := [];
          if nodes[top.path] == Dir {
            children := ListChildren(top.path);
          } else {
            ChildlessLeaf(nodes, top.path);
          }
          Expanded(before, root, nodes, rest, top.path, children);
          ExpandedMeasure(nodes, rest, top.path, children);
          stack := Expand(rest, top.path, children);
        }
      }
      RemovalIsDone(before, root, nodes);
      ok := true;
    }

    /** Creates the missing directories on the way to `p`.  When something else
        is in the way it changes nothing, and notices unless that is the very
        directory `p` should be in. */
    method EnsureParents(p: Path) returns (ok: bool)
      requires WellFormed(nodes) && p != []
      modifies this
      ensures !ParentBlocked(old(nodes), p) ==> ok && nodes == MakeParents(old(nodes), p) && WellFormed(nodes)
      ensures ParentBlocked(old(nodes), p) ==> nodes == old(nodes) && ok == (Parent(p) in nodes)
    {
      ghost var before := nodes;
      ok := true;
      MakeNoParents(before, p);
      for depth := 1 to |p|
        invariant WellFormed(nodes)
        invariant !ParentBlocked(before, p) ==> nodes == MakeParents(before, p[..depth])
        invariant ParentBlocked(before, p) ==> nodes == before
        invariant depth > 1 ==> p[..depth - 1] in nodes
      {
        ParentStep(before, p, depth);
        if p[..depth] !in nodes {
          var made := Create(p[..depth], Dir);
          if !made {
            AbsentAbove(before, p, depth);
            return false;
          }
        }
      }
      assert p[..|p|] == p;
    }

    /** Copies the node at `root` with everything beneath it; the path must be
        vacant here.  A path absent in the source copies nothing. */
    method CopyNode(src: Tree, root: Path) returns (ok: bool)
      requires WellFormed(nodes) && WellFormed(src) && root != [] && Vacant(nodes, root)
      modifies this
      ensures (root in src ==> ParentReady(old(nodes), root)) ==>
        ok && nodes == Replace(old(nodes), src, root) && WellFormed(nodes)
      ensures root in src && !ParentReady(old(nodes), root) ==> !ok && nodes == old(nodes)
    {
      ghost var before := nodes;
      var queue := [root];
      if root in src && !(|root| == 1 || Get(nodes, Parent(root)) == Some(Dir)) {
        // The first creation fails.
        var made := Create(root, src[root]);
        return false;
      }
      forall p | p in src && StartsWith(p, root) ensures Queued(queue, p) {
        assert StartsWith(p, queue[0]);
      }
      while queue != []
        invariant Copying(before, src, root, nodes, queue)
        decreases Uncopied(src, root, nodes), |queue|
      {
        var path, rest := queue[|queue| - 1], queue[..|queue| - 1];
        assert queue == rest + [path];
        if path !in src {
          CopySkips(before, src, root, nodes, rest, path);
          queue := rest;
        } else {
          var children: seq<Name> := [];
          if src[path] == Dir {
            children := ListIn(src, path);
          } else {
            ChildlessLeaf(src, path);
          }
          CopyAdvances(before, src, root, nodes, rest, path, children);
          var made := Create(path, src[path]);
          queue := rest + ChildPaths(path, children);
        }
      }
      CopyIsDone(before, src, root, nodes);
      ok := true;
    }

    /** Replaces one path wholesale by what the entry holds. */
    method ApplyEntry(p: Path, source: Source) returns (ok: bool)
      requires WellFormed(nodes) && p != []
      requires source.FromGeneration? ==> WellFormed(source.generation)
      modifies this
      ensures (ok, nodes) == Applied(old(nodes), p, source) && WellFormed(nodes)
    {
      ghost var before := nodes;
      var removed := RemoveSubtree(p);
      ghost var cleared := nodes;
      BlockedStaysBlocked(before, p);
      ClearedStaysVacant(before, p);
      if ParentBlocked(before, p) {
        BlockedIsNotReady(before, p);
        VacantIsCleared(before, p);
      } else {
        ParentsMadeAreReady(cleared, p);
        ClearingFirst(before, EntryFor(p, source).source, p);
      }
      ok := EnsureParents(p);
      if !ok {
        return;
      }
      match source
      case FileContent(bytes) =>
        if !ParentBlocked(before, p) {
          CreatingIsReplacing(nodes, p, Regular(bytes));
          CreateKeepsShape(nodes, p, Regular(bytes));
        }
        ok := Create(p, Regular(bytes));
      case FromGeneration(generation) =>
        if ParentBlocked(before, p) && p !in generation {
          NothingToReplace(nodes, generation, p);
        }
        ok := CopyNode(generation, p);
    }

    /** Applies the entries in order and stops at the first failure, with what
        was applied before it. */
    method ApplyEntries(entries: seq<(Path, Source)>) returns (ok: bool)
      requires WellFormed(nodes)
      requires forall e :: e in entries ==> e.0 != [] && (e.1.FromGeneration? ==> WellFormed(e.1.generation))
      modifies this
      ensures (ok, nodes) == AppliedAll(old(nodes), entries) && WellFormed(nodes)
    {
      ghost var before := nodes;
      ok := true;
      for i := 0 to |entries|
        invariant WellFormed(nodes) && AppliedAll(before, entries[..i]) == (true, nodes)
      {
        assert entries[..i + 1][..i] == entries[..i];
        assert entries[i] in entries;
        ok := ApplyEntry(entries[i].0, entries[i].1);
        if !ok {
          ApplyingStopsAt(before, entries, i + 1);
          return;
        }
      }
      assert entries[..|entries|] == entries;
    }
  }

  /** One entry: whether it could be applied, and the tree left.  An entry that
      finds something else on the way changes nothing; it goes unnoticed only
      when it holds nothing and that is the very directory it should be in. */
  function Applied(t: Tree, p: Path, source: Source): (bool, Tree)
    requires p != []
  {
    if !ParentBlocked(t, p) then (true, Put(t, EntryFor(p, source)))
    else (source.FromGeneration? && p !in source.generation && Parent(p) in t, t)
  }

  /** What that leaves at each path. */
  lemma AppliedExactly(t: Tree, p: Path, source: Source, q: Path)
    requires p != []
    ensures var r := Applied(t, p, source);
            if forall a :: ProperAncestor(a, p) && a in t ==> t[a] == Dir then
              r.0 && Get(r.1, q) ==
                if !StartsWith(q, p) then (if ProperAncestor(q, p) then Some(Dir) else Get(t, q))
                else if source.FromGeneration? then Get(source.generation, q)
                else if q == p then Some(Regular(source.bytes)) else None
            else r.1 == t && (r.0 <==> source.FromGeneration? && p !in source.generation && Parent(p) in t)
  {
    if a :| ProperAncestor(a, p) && a in t && t[a] != Dir {
      assert a in ParentSet(p);
    } else {
      assert forall a :: a in ParentSet(p) && a in t ==> t[a] == Dir;
      ReplaceAt(MakeParents(t, p), EntryFor(p, source).source, p, q);
      assert ProperAncestor(q, p) ==> q in ParentSet(p);
    }
  }

  function AppliedAll(t: Tree, entries: seq<(Path, Source)>): (bool, Tree)
    requires forall e :: e in entries ==> e.0 != []
  {
    if entries == [] then (true, t)
    else
      var k := |entries| - 1;
      assert entries[k] in entries;
      var before := AppliedAll(t, entries[..k]);
      if before.0 then Applied(before.1, entries[k].0, entries[k].1) else before
  }

  lemma {:induction false} ApplyingStopsAt(t: Tree, entries: seq<(Path, Source)>, i: nat)
    requires i <= |entries| && (forall e :: e in entries ==> e.0 != []) && !AppliedAll(t, entries[..i]).0
    ensures AppliedAll(t, entries) == AppliedAll(t, entries[..i])
    decreases |entries|
  {
    if i == |entries| {
      assert entries[..i] == entries;
    } else {
      var k := |entries| - 1;
      assert entries[..k][..i] == entries[..i];
      ApplyingStopsAt(t, entries[..k], i);
    }
  }

  /** A list is applied in order, and what is after a failure is not. */
  lemma {:induction false} AppliedInOrder(t: Tree, first: seq<(Path, Source)>, rest: seq<(Path, Source)>)
    requires (forall e :: e in first ==> e.0 != []) && forall e :: e in rest ==> e.0 != []
    ensures var done := AppliedAll(t, first);
            AppliedAll(t, first + rest) == if done.0 then AppliedAll(done.1, rest) else done
  {
    if rest == [] {
      assert first + rest == first;
    } else {
      var k := |rest| - 1;
      AppliedInOrder(t, first, rest[..k]);
      assert (first + rest)[..|first + rest| - 1] == first + rest[..k];
    }
  }

  /** A list that is blocked nowhere is applied as the replacements it names. */
  lemma {:induction false} UnblockedEntriesApply(t: Tree, entries: seq<(Path, Source)>)
    requires forall e :: e in entries ==> e.0 != []
    requires Unblocked(t, Entries(entries))
    ensures AppliedAll(t, entries) == (true, PutAll(t, Entries(entries)))
  {
    if entries != [] {
      var k := |entries| - 1;
      assert Entries(entries)[..k] == Entries(entries[..k]);
      forall i | 0 <= i < k
        ensures !ParentBlocked(PutAll(t, Entries(entries[..k])[..i]), Entries(entries[..k])[i].path)
      {
        assert Entries(entries[..k])[..i] == Entries(entries)[..i];
      }
      UnblockedEntriesApply(t, entries[..k]);
    }
  }

  function Entries(entries: seq<(Path, Source)>): (r: seq<Entry>)
    ensures |r| == |entries| && forall i :: 0 <= i < |r| ==> r[i] == EntryFor(entries[i].0, entries[i].1)
  {
    seq(|entries|, i requires 0 <= i < |entries| => EntryFor(entries[i].0, entries[i].1))
  }

  /** No entry finds something else on the way to its path. */
  ghost predicate Unblocked(t: Tree, entries: seq<Entry>) {
    forall i :: 0 <= i < |entries| ==> !ParentBlocked(PutAll(t, entries[..i]), entries[i].path)
  }
}
