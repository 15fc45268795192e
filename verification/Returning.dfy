/** Moving the carried paths back when some of it fails: which paths of the
    working tree are there again, for any list and any failures. */
module Returning {
  import opened Paths
  import opened Trees
  import opened Writing
  import opened Carrying
  import opened Checkouts

  /** The paths whose rename back fails, and those for which the directories on
      the way cannot be made. */
  datatype Trouble = Trouble(stuck: set<Path>, closed: set<Path>)

  /** After the first `i` turns `p` is in the working tree: it was there before, or
      in the turn of a path that was not there a directory was made for that, or
      the rename brought it. */
  ghost predicate There(carried: seq<Path>, trouble: Trouble, first: Tree, i: nat, p: Path)
    requires i <= |carried|
    decreases i, 0
  {
    if i == 0 then p in first
    else
      var c := carried[i - 1];
      There(carried, trouble, first, i - 1, p) ||
      (!There(carried, trouble, first, i - 1, c) && ProperAncestor(p, c) && c !in trouble.closed) ||
      (MovesNow(carried, trouble, first, i - 1) && StartsWith(p, c))
  }

  /** The rename of the `i`-th path is made: the path is not there, its directory
      is or can be made, and the rename works. */
  ghost predicate MovesNow(carried: seq<Path>, trouble: Trouble, first: Tree, i: nat)
    requires i < |carried|
    decreases i, 1
  {
    var c := carried[i];
    !There(carried, trouble, first, i, c) && c !in trouble.stuck &&
    (c !in trouble.closed || |c| <= 1 || There(carried, trouble, first, i, Parent(c)))
  }

  /** One of the first `i` renames took it out of the staged tree. */
  ghost predicate Taken(carried: seq<Path>, trouble: Trouble, first: Tree, i: nat, p: Path)
    requires i <= |carried|
  {
    exists j :: 0 <= j < i && MovesNow(carried, trouble, first, j) && StartsWith(p, carried[j])
  }

  /** A working tree that was `first` when the moves back began, after `i` turns. */
  ghost predicate BackAsFar(live: Tree, first: Tree, repo: Tree, carried: seq<Path>, trouble: Trouble, i: nat)
    requires i <= |carried|
  {
    forall p :: Get(repo, p) == if There(carried, trouble, first, i, p) then Get(live, p) else None
  }

  ghost predicate WasAway(carried: seq<Path>, first: Tree, p: Path) {
    exists c :: c in carried && c !in first && StartsWith(p, c)
  }

  ghost predicate LeftInStage(live: Tree, first: Tree, tmp: Tree, carried: seq<Path>, trouble: Trouble, i: nat)
    requires i <= |carried|
  {
    forall p :: WasAway(carried, first, p) ==>
      Get(tmp, p) == if Taken(carried, trouble, first, i, p) then None else Get(live, p)
  }

  /** The state before the `i`-th turn. */
  ghost predicate PutBack(live: Tree, first: Tree, repo: Tree, tmp: Tree, carried: seq<Path>, trouble: Trouble, i: nat)
    requires i <= |carried|
  {
    BackAsFar(live, first, repo, carried, trouble, i) && LeftInStage(live, first, tmp, carried, trouble, i)
  }

  /** The state in which the moves back begin. */
  ghost predicate Begins(live: Tree, first: Tree, tmp: Tree, carried: seq<Path>) {
    AllLive(live, carried) && Halfway(live, first, tmp, carried)
  }

  lemma NothingBackYet(live: Tree, first: Tree, tmp: Tree, carried: seq<Path>, trouble: Trouble)
    requires Begins(live, first, tmp, carried)
    ensures PutBack(live, first, first, tmp, carried, trouble, 0)
  {
    forall p ensures Get(first, p) == if There(carried, trouble, first, 0, p) then Get(live, p) else None {
      HalfwayIsLive(live, first, tmp, carried, p);
    }
    forall p | WasAway(carried, first, p) ensures Get(tmp, p) == Get(live, p) {
      var c :| c in carried && c !in first && StartsWith(p, c);
      HomeOrGone(live, first, tmp, carried, c, p);
    }
  }

  /** Whatever is there has its directories there. */
  lemma {:induction false} ThereIsClosed(live: Tree, first: Tree, tmp: Tree, carried: seq<Path>, trouble: Trouble,
      i: nat, p: Path, a: Path)
    requires Begins(live, first, tmp, carried) && i <= |carried|
    requires There(carried, trouble, first, i, p) && ProperAncestor(a, p)
    ensures There(carried, trouble, first, i, a)
  {
    if i == 0 {
      HalfwayIsLive(live, first, tmp, carried, p);
    } else {
      var c := carried[i - 1];
      assert c in carried;
      if There(carried, trouble, first, i - 1, p) {
        ThereIsClosed(live, first, tmp, carried, trouble, i - 1, p, a);
      } else if MovesNow(carried, trouble, first, i - 1) && StartsWith(p, c) {
        AncestorsAreComparable(a, c, p);
        if !StartsWith(a, c) {
          assert ProperAncestor(a, c);
          if c in trouble.closed && a != Parent(c) {
            assert ProperAncestor(a, Parent(c));
            ThereIsClosed(live, first, tmp, carried, trouble, i - 1, Parent(c), a);
          }
        }
      } else {
        assert ProperAncestor(a, c);
      }
    }
  }

  lemma {:induction false} ThereStays(carried: seq<Path>, trouble: Trouble, first: Tree, i: nat, j: nat, p: Path)
    requires i <= j <= |carried| && There(carried, trouble, first, i, p)
    ensures There(carried, trouble, first, j, p)
  {
    if i < j {
      ThereStays(carried, trouble, first, i, j - 1, p);
    }
  }

  /** Of a path that is not there nothing has been taken out of the staged tree. */
  lemma NothingTaken(live: Tree, first: Tree, tmp: Tree, carried: seq<Path>, trouble: Trouble, i: nat, p: Path)
    requires Begins(live, first, tmp, carried) && i < |carried|
    requires !There(carried, trouble, first, i, carried[i]) && StartsWith(p, carried[i])
    ensures !Taken(carried, trouble, first, i, p)
  {
    var c := carried[i];
    forall j | 0 <= j < i && MovesNow(carried, trouble, first, j) ensures !StartsWith(p, carried[j]) {
      var d := carried[j];
      if StartsWith(p, d) {
        assert There(carried, trouble, first, j + 1, d);
        ThereStays(carried, trouble, first, j + 1, i, d);
        AncestorsAreComparable(c, d, p);
        TakenAlone(live, first, tmp, carried, trouble, i, j);
      }
    }
  }

  lemma TakenAlone(live: Tree, first: Tree, tmp: Tree, carried: seq<Path>, trouble: Trouble, i: nat, j: nat)
    requires Begins(live, first, tmp, carried) && j < i < |carried| && MovesNow(carried, trouble, first, j)
    ensures Comparable(carried[i], carried[j]) ==> There(carried, trouble, first, i, carried[i])
  {
    var c, d := carried[i], carried[j];
    assert There(carried, trouble, first, j + 1, d);
    if StartsWith(c, d) {
      ThereStays(carried, trouble, first, j + 1, i, c);
    } else if StartsWith(d, c) {
      assert c in carried && ProperAncestor(c, d);
      ThereIsClosed(live, first, tmp, carried, trouble, j + 1, d, c);
      ThereStays(carried, trouble, first, j + 1, i, c);
    }
  }

  /** A path whose turn comes while it is absent is in the staged tree, whole,
      and nothing stands in its way. */
  lemma TurnToMoveBack(live: Tree, first: Tree, tmp0: Tree, repo: Tree, tmp: Tree, carried: seq<Path>,
      trouble: Trouble, i: nat)
    requires Begins(live, first, tmp0, carried) && i < |carried|
    requires PutBack(live, first, repo, tmp, carried, trouble, i) && carried[i] !in repo
    ensures carried[i] in tmp && !ParentBlocked(repo, carried[i]) && !There(carried, trouble, first, i, carried[i])
    ensures forall p :: StartsWith(p, carried[i]) ==> Get(tmp, p) == Get(live, p)
    ensures var c := carried[i];
            ParentReady(if c in trouble.closed then repo else MakeParents(repo, c), c) <==>
            c !in trouble.closed || |c| <= 1 || There(carried, trouble, first, i, Parent(c))
  {
    var c := carried[i];
    assert c in carried && c in live;
    assert Get(repo, c) == None;
    if c in first {
      ThereFromTheStart(carried, trouble, first, i, c);
    }
    forall p | StartsWith(p, c) ensures Get(tmp, p) == Get(live, p) {
      assert WasAway(carried, first, p);
      NothingTaken(live, first, tmp0, carried, trouble, i, p);
    }
    assert StartsWith(c, c);
    forall a | a in ParentSet(c) && a in repo ensures repo[a] == Dir {
      assert Get(repo, a) == Get(live, a);
    }
    ParentsMadeAreReady(repo, c);
    if |c| > 1 {
      assert ProperAncestor(Parent(c), c);
      assert Get(live, Parent(c)) == Some(Dir);
    }
  }

  lemma {:induction false} ThereFromTheStart(carried: seq<Path>, trouble: Trouble, first: Tree, i: nat, p: Path)
    requires i <= |carried| && p in first
    ensures There(carried, trouble, first, i, p)
  {
    if i > 0 {
      ThereFromTheStart(carried, trouble, first, i - 1, p);
    }
  }

  /** One turn of the moves back: a path that is there is skipped, and for one
      that is not, the directories are made and the rename is tried. */
  lemma TurnTaken(live: Tree, first: Tree, tmp0: Tree, repo: Tree, tmp: Tree, carried: seq<Path>, trouble: Trouble,
      i: nat)
    requires Begins(live, first, tmp0, carried) && i < |carried|
    requires PutBack(live, first, repo, tmp, carried, trouble, i)
    ensures var c := carried[i];
            var made := if c in trouble.closed then repo else MakeParents(repo, c);
            if c in repo then PutBack(live, first, repo, tmp, carried, trouble, i + 1)
            else if c in trouble.stuck || !ParentReady(made, c) then
              PutBack(live, first, made, tmp, carried, trouble, i + 1)
            else PutBack(live, first, MovedBack(made, tmp, c), MovedOut(tmp, c), carried, trouble, i + 1)
  {
    var c := carried[i];
    assert c in carried && c in live;
    assert Get(repo, c) == if There(carried, trouble, first, i, c) then Get(live, c) else None;
    if c in repo {
      TurnSkipped(live, first, repo, tmp, carried, trouble, i);
    } else {
      TurnToMoveBack(live, first, tmp0, repo, tmp, carried, trouble, i);
      TurnLeaves(live, first, tmp0, repo, tmp, carried, trouble, i);
    }
  }

  lemma TurnSkipped(live: Tree, first: Tree, repo: Tree, tmp: Tree, carried: seq<Path>, trouble: Trouble, i: nat)
    requires i < |carried| && There(carried, trouble, first, i, carried[i])
    requires PutBack(live, first, repo, tmp, carried, trouble, i)
    ensures PutBack(live, first, repo, tmp, carried, trouble, i + 1)
  {
    forall p ensures There(carried, trouble, first, i + 1, p) <==> There(carried, trouble, first, i, p) {}
    forall p | WasAway(carried, first, p)
      ensures Taken(carried, trouble, first, i + 1, p) <==> Taken(carried, trouble, first, i, p)
    {
      TakenOnceMore(carried, trouble, first, i, p);
    }
  }

  lemma TurnLeaves(live: Tree, first: Tree, tmp0: Tree, repo: Tree, tmp: Tree, carried: seq<Path>, trouble: Trouble,
      i: nat)
    requires Begins(live, first, tmp0, carried) && i < |carried|
    requires PutBack(live, first, repo, tmp, carried, trouble, i) && carried[i] !in repo
    ensures var c := carried[i];
            var made := if c in trouble.closed then repo else MakeParents(repo, c);
            var moves := MovesNow(carried, trouble, first, i);
            PutBack(live, first, if moves then MovedBack(made, tmp, c) else made,
                    if moves then MovedOut(tmp, c) else tmp, carried, trouble, i + 1)
  {
    var c := carried[i];
    var made := if c in trouble.closed then repo else MakeParents(repo, c);
    var moves := MovesNow(carried, trouble, first, i);
    var repo', tmp' := if moves then MovedBack(made, tmp, c) else made, if moves then MovedOut(tmp, c) else tmp;
    assert c in carried && c in live;
    TurnToMoveBack(live, first, tmp0, repo, tmp, carried, trouble, i);
    forall p ensures Get(repo', p) == if There(carried, trouble, first, i + 1, p) then Get(live, p) else None {
      MakeParentsAt(repo, c, p);
      ReplaceAt(made, tmp, c, p);
      assert ProperAncestor(p, c) ==> Get(live, p) == Some(Dir);
    }
    forall p | WasAway(carried, first, p)
      ensures Get(tmp', p) == if Taken(carried, trouble, first, i + 1, p) then None else Get(live, p)
    {
      ReplaceAt(tmp, map[], c, p);
      TakenOnceMore(carried, trouble, first, i, p);
    }
  }

  lemma TakenOnceMore(carried: seq<Path>, trouble: Trouble, first: Tree, i: nat, p: Path)
    requires i < |carried|
    ensures Taken(carried, trouble, first, i + 1, p) <==>
            Taken(carried, trouble, first, i, p) || (MovesNow(carried, trouble, first, i) && StartsWith(p, carried[i]))
  {
    if Taken(carried, trouble, first, i, p) {
      var j :| 0 <= j < i && MovesNow(carried, trouble, first, j) && StartsWith(p, carried[j]);
    }
  }

  // -------------------------------------------------------------------------
  // Which paths those are, when the directories can be made
  // -------------------------------------------------------------------------

  /** Nothing inside the `i`-th path is listed before it. */
  ghost predicate NoneInside(carried: seq<Path>, i: nat)
    requires i < |carried|
  {
    forall j :: 0 <= j < i ==> !ProperAncestor(carried[i], carried[j])
  }

  /** At or beneath a path that can be renamed back, and whose place is not
      taken by then by the directories made for a path inside it. */
  ghost predicate ComesHome(carried: seq<Path>, stuck: set<Path>, p: Path) {
    exists i :: 0 <= i < |carried| && StartsWith(p, carried[i]) && carried[i] !in stuck && NoneInside(carried, i)
  }

  /** At home before, made on the way to a listed path, or renamed back. */
  ghost predicate EndsHome(carried: seq<Path>, stuck: set<Path>, first: Tree, p: Path) {
    p in first || OnTheWay(carried, p) || ComesHome(carried, stuck, p)
  }

  lemma ComesHomeGrows(carried: seq<Path>, stuck: set<Path>, i: nat, p: Path)
    requires i < |carried|
    ensures ComesHome(carried[..i + 1], stuck, p) <==>
            ComesHome(carried[..i], stuck, p) ||
            (StartsWith(p, carried[i]) && carried[i] !in stuck && NoneInside(carried, i))
  {
    var less, more := carried[..i], carried[..i + 1];
    forall k | 0 <= k < i ensures NoneInside(more, k) <==> NoneInside(less, k) {
      assert forall j :: 0 <= j <= k ==> less[j] == more[j];
    }
    if ComesHome(less, stuck, p) {
      var k :| 0 <= k < i && StartsWith(p, less[k]) && less[k] !in stuck && NoneInside(less, k);
      assert more[k] == less[k] && NoneInside(more, k);
    }
    assert NoneInside(more, i) <==> NoneInside(carried, i) by {
      assert forall j :: 0 <= j <= i ==> carried[j] == more[j];
    }
    if ComesHome(more, stuck, p) {
      var k :| 0 <= k < |more| && StartsWith(p, more[k]) && more[k] !in stuck && NoneInside(more, k);
      if k < i {
        assert less[k] == more[k] && NoneInside(less, k);
      }
    }
  }

  lemma AboveOneThatIsBack(done: seq<Path>, stuck: set<Path>, c: Path, p: Path)
    requires ProperAncestor(p, c)
    ensures OnTheWay(done, c) ==> OnTheWay(done, p)
    ensures ComesHome(done, stuck, c) ==> OnTheWay(done, p) || ComesHome(done, stuck, p)
  {
    if OnTheWay(done, c) {
      var d :| d in done && ProperAncestor(c, d);
      assert ProperAncestor(p, d);
    }
    if ComesHome(done, stuck, c) {
      var k :| 0 <= k < |done| && StartsWith(c, done[k]) && done[k] !in stuck && NoneInside(done, k);
      AncestorsAreComparable(p, done[k], c);
      if !StartsWith(p, done[k]) {
        assert ProperAncestor(p, done[k]);
      }
    }
  }

  lemma NotOnTheWay(carried: seq<Path>, i: nat)
    requires i < |carried|
    ensures NoneInside(carried, i) <==> !OnTheWay(carried[..i], carried[i])
  {
    if OnTheWay(carried[..i], carried[i]) {
      var d :| d in carried[..i] && ProperAncestor(carried[i], d);
      var j :| 0 <= j < i && carried[..i][j] == d;
      assert carried[j] == d;
    }
    if !NoneInside(carried, i) {
      var j :| 0 <= j < i && ProperAncestor(carried[i], carried[j]);
      assert carried[..i][j] in carried[..i];
    }
  }

  /** Where a directory cannot be made, no carried path lies above. */
  ghost predicate WaysAreOpen(carried: seq<Path>, trouble: Trouble) {
    forall c, d :: c in carried && d in carried && ProperAncestor(d, c) ==> c !in trouble.closed
  }

  /** A path that is there when its turn comes came with one above it, or was
      made for one inside it: its turn brings nothing. */
  lemma AlreadyBack(live: Tree, first: Tree, tmp0: Tree, carried: seq<Path>, stuck: set<Path>, i: nat, p: Path)
    requires Begins(live, first, tmp0, carried) && i < |carried| && p in live
    requires EndsHome(carried[..i], stuck, first, carried[i])
    ensures EndsHome(carried[..i + 1], stuck, first, p) <==> EndsHome(carried[..i], stuck, first, p)
  {
    var c, done := carried[i], carried[..i];
    assert carried[..i + 1] == done + [c] && c in carried;
    OnTheWayGrows(done, c, p);
    ComesHomeGrows(carried, stuck, i, p);
    HalfwayIsLive(live, first, tmp0, carried, c);
    HalfwayIsLive(live, first, tmp0, carried, p);
    if ProperAncestor(p, c) {
      AboveOneThatIsBack(done, stuck, c, p);
    }
    if StartsWith(p, c) && NoneInside(carried, i) {
      NotOnTheWay(carried, i);
      if ComesHome(done, stuck, c) {
        var k :| 0 <= k < |done| && StartsWith(c, done[k]) && done[k] !in stuck && NoneInside(done, k);
        assert StartsWith(p, done[k]);
      }
    }
  }

  /** No carried path above means that every directory on the way stayed. */
  lemma WayStayed(live: Tree, first: Tree, tmp0: Tree, carried: seq<Path>, c: Path, a: Path)
    requires Begins(live, first, tmp0, carried) && c in carried && ProperAncestor(a, c)
    requires forall d :: d in carried ==> !ProperAncestor(d, c)
    ensures a in first
  {
    assert Get(live, a) == Some(Dir);
    forall d | d in carried ensures !StartsWith(a, d) {
      assert StartsWith(a, d) ==> ProperAncestor(d, c);
    }
    assert Get(first, a) == Get(live, a);
  }

  /** With the directories makeable, or not needed, exactly these live paths end up
      there: what was there before, what had to be made on the way to a carried
      path, and what lies beneath a path whose rename works and before which no
      path inside it is listed. */
  lemma {:induction false} ThereExactly(live: Tree, first: Tree, tmp0: Tree, carried: seq<Path>, trouble: Trouble,
      i: nat, p: Path)
    requires Begins(live, first, tmp0, carried) && WaysAreOpen(carried, trouble) && i <= |carried| && p in live
    ensures There(carried, trouble, first, i, p) <==> EndsHome(carried[..i], trouble.stuck, first, p)
  {
    if i > 0 {
      var k := i - 1;
      var c, done := carried[k], carried[..k];
      assert carried[..i] == done + [c] && c in carried;
      ThereExactly(live, first, tmp0, carried, trouble, k, p);
      ThereExactly(live, first, tmp0, carried, trouble, k, c);
      OnTheWayGrows(done, c, p);
      ComesHomeGrows(carried, trouble.stuck, k, p);
      NotOnTheWay(carried, k);
      if There(carried, trouble, first, k, c) {
        AlreadyBack(live, first, tmp0, carried, trouble.stuck, k, p);
      } else if c in trouble.closed {
        ClosedTurn(live, first, tmp0, carried, trouble, k, p);
      }
    }
  }

  lemma ClosedTurn(live: Tree, first: Tree, tmp0: Tree, carried: seq<Path>, trouble: Trouble, k: nat, p: Path)
    requires Begins(live, first, tmp0, carried) && WaysAreOpen(carried, trouble) && k < |carried|
    requires carried[k] in trouble.closed && !There(carried, trouble, first, k, carried[k])
    ensures ProperAncestor(p, carried[k]) ==> p in first
    ensures MovesNow(carried, trouble, first, k) <==> carried[k] !in trouble.stuck
  {
    var c := carried[k];
    assert c in carried;
    if ProperAncestor(p, c) {
      WayStayed(live, first, tmp0, carried, c, p);
    }
    if |c| > 1 {
      WayStayed(live, first, tmp0, carried, c, Parent(c));
      ThereFromTheStart(carried, trouble, first, k, Parent(c));
    }
  }

  /** A safe list in which one stuck rename costs a path whose own rename works:
      by its turn the directories made for a path inside it stand in its place. */
  lemma PlaceTaken(first: Tree)
    requires first == map[]
    ensures var carried, stuck := [["a"], ["a", "b", "c"], ["a", "b"]], {["a"]};
            SafeOrder(carried) && ["a", "b"] !in stuck && !EndsHome(carried, stuck, first, ["a", "b", "x"])
  {
    var carried, stuck, p := [["a"], ["a", "b", "c"], ["a", "b"]], {["a"]}, ["a", "b", "x"];
    assert StartsWith(carried[2], carried[0]);
    assert TakenEarlier(carried, 1, 2);
    assert !StartsWith(carried[0], carried[1]) && !StartsWith(carried[0], carried[2]);
    assert ProperAncestor(carried[2], carried[1]);
    assert !NoneInside(carried, 2);
    assert !StartsWith(p, carried[1]) by {
      assert p[2] != carried[1][2];
    }
    forall c | c in carried ensures !ProperAncestor(p, c) {}
  }

}
