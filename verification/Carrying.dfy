/** Moving the live excluded paths from the working tree into the restored one
    and back: what each state in between still holds, and exactly which rule
    lists lose nothing. */
module Carrying {
  import opened Paths
  import opened Trees
  import opened Writing

  ghost predicate Covered(carried: seq<Path>, p: Path) {
    exists c :: c in carried && StartsWith(p, c)
  }

  /** The live copy of `c` is still where it was. */
  ghost predicate Home(live: Tree, repo: Tree, c: Path) {
    forall p :: StartsWith(p, c) ==> Get(repo, p) == Get(live, p)
  }

  /** The live copy of `c` has moved to `tmp`, whole. */
  ghost predicate Away(live: Tree, repo: Tree, tmp: Tree, c: Path) {
    forall p :: StartsWith(p, c) ==> p !in repo && Get(tmp, p) == Get(live, p)
  }

  ghost predicate HomeOrAway(live: Tree, repo: Tree, tmp: Tree, c: Path) {
    Home(live, repo, c) || Away(live, repo, tmp, c)
  }

  /** Any state between the first move and the last: nothing else in the
      working tree changed and every carried path is whole on one side. */
  ghost predicate Halfway(live: Tree, repo: Tree, tmp: Tree, carried: seq<Path>) {
    (forall p :: !Covered(carried, p) ==> Get(repo, p) == Get(live, p)) &&
    (forall c :: c in carried ==> HomeOrAway(live, repo, tmp, c))
  }

  /** Real paths that exist in the working tree. */
  ghost predicate AllLive(live: Tree, carried: seq<Path>) {
    WellFormed(live) && forall c :: c in carried ==> c != [] && c in live
  }

  /** No path comes before a directory it lies in, unless something listed
      earlier already takes that directory along. */
  ghost predicate SafeOrder(carried: seq<Path>) {
    forall i, j {:trigger StartsWith(carried[i], carried[j])} ::
      0 <= i < j < |carried| && StartsWith(carried[i], carried[j]) && carried[i] != carried[j] ==>
      TakenEarlier(carried, i, j)
  }

  ghost predicate TakenEarlier(carried: seq<Path>, i: nat, j: nat)
    requires i < |carried| && j < |carried|
  {
    exists h :: 0 <= h < i && StartsWith(carried[j], carried[h])
  }

  /** No rule lies at or beneath another. */
  lemma UnnestedIsSafe(carried: seq<Path>)
    requires NoNesting(carried)
    ensures SafeOrder(carried)
  {}

  // -------------------------------------------------------------------------
  // One move out
  // -------------------------------------------------------------------------

  /** The working tree and the staged tree after moving `c` over. */
  function MovedOut(repo: Tree, c: Path): Tree {
    Replace(repo, map[], c)
  }

  function MovedIn(tmp: Tree, repo: Tree, c: Path): Tree {
    Replace(MakeParents(tmp, c), repo, c)
  }

  lemma MovedInAt(tmp: Tree, repo: Tree, c: Path, p: Path)
    ensures Get(MovedIn(tmp, repo, c), p) ==
            if StartsWith(p, c) then Get(repo, p)
            else if p in tmp then Get(tmp, p)
            else if ProperAncestor(p, c) then Some(Dir)
            else None
  {
    ReplaceAt(MakeParents(tmp, c), repo, c, p);
    MakeParentsAt(tmp, c, p);
  }

  /** Before the `i`-th move: everything listed earlier is away. */
  ghost predicate CarriedUpTo(live: Tree, repo: Tree, tmp: Tree, carried: seq<Path>, i: nat)
    requires i <= |carried|
  {
    Halfway(live, repo, tmp, carried) && forall k :: 0 <= k < i ==> Away(live, repo, tmp, carried[k])
  }

  lemma AbsentIsNotHome(live: Tree, repo: Tree, c: Path, d: Path)
    requires StartsWith(c, d) && c in live && c !in repo
    ensures !Home(live, repo, d)
  {
    assert Get(repo, c) != Get(live, c);
  }

  lemma PresentIsNotAway(live: Tree, repo: Tree, tmp: Tree, c: Path, d: Path)
    requires StartsWith(c, d) && c in repo
    ensures !Away(live, repo, tmp, d)
  {}

  lemma HomeIsPresent(live: Tree, repo: Tree, c: Path, d: Path)
    requires Home(live, repo, d) && StartsWith(c, d) && c in live
    ensures c in repo
  {
    assert Get(repo, c) == Get(live, c);
  }

  lemma TakenEarlierIsGone(live: Tree, repo: Tree, tmp: Tree, carried: seq<Path>, i: nat, k: nat)
    requires i < |carried| && k < |carried| && StartsWith(carried[i], carried[k])
    requires CarriedUpTo(live, repo, tmp, carried, i)
    ensures TakenEarlier(carried, i, k) ==> carried[i] !in repo
  {
    if TakenEarlier(carried, i, k) {
      var h :| 0 <= h < i && StartsWith(carried[k], carried[h]);
      assert Away(live, repo, tmp, carried[h]) && StartsWith(carried[i], carried[h]);
    }
  }

  /** When `c = carried[i]` is still home, no other carried path above or
      beneath it has been moved, and none above it is still to come. */
  lemma NothingAboveMoves(live: Tree, repo: Tree, tmp: Tree, carried: seq<Path>, i: nat, k: nat)
    requires AllLive(live, carried) && SafeOrder(carried) && i < |carried| && k < |carried|
    requires CarriedUpTo(live, repo, tmp, carried, i) && carried[i] in repo
    ensures StartsWith(carried[i], carried[k]) ==> carried[k] == carried[i]
    ensures Away(live, repo, tmp, carried[k]) ==> !Comparable(carried[k], carried[i])
    ensures Home(live, repo, carried[i])
  {
    var c, d := carried[i], carried[k];
    assert c in carried && d in carried;
    PresentIsNotAway(live, repo, tmp, c, c);
    assert HomeOrAway(live, repo, tmp, c);
    if StartsWith(c, d) {
      PresentIsNotAway(live, repo, tmp, c, d);
      if k > i && c != d {
        TakenEarlierIsGone(live, repo, tmp, carried, i, k);
      }
    } else if StartsWith(d, c) {
      HomeIsPresent(live, repo, d, c);
      PresentIsNotAway(live, repo, tmp, d, d);
    }
  }

  lemma MoveKeepsOthers(live: Tree, repo: Tree, tmp: Tree, carried: seq<Path>, i: nat, k: nat)
    requires AllLive(live, carried) && SafeOrder(carried) && i < |carried| && k < |carried|
    requires CarriedUpTo(live, repo, tmp, carried, i) && carried[i] in repo
    ensures HomeOrAway(live, MovedOut(repo, carried[i]), MovedIn(tmp, repo, carried[i]), carried[k])
    ensures k <= i ==> Away(live, MovedOut(repo, carried[i]), MovedIn(tmp, repo, carried[i]), carried[k])
  {
    var c, d := carried[i], carried[k];
    var repo', tmp' := MovedOut(repo, c), MovedIn(tmp, repo, c);
    assert c in carried && d in carried;
    NothingAboveMoves(live, repo, tmp, carried, i, k);
    forall p | StartsWith(p, d)
      ensures StartsWith(d, c) ==> p !in repo' && Get(tmp', p) == Get(live, p)
      ensures Away(live, repo, tmp, d) ==> p !in repo' && Get(tmp', p) == Get(live, p)
      ensures Home(live, repo, d) && !StartsWith(d, c) ==> Get(repo', p) == Get(live, p)
    {
      ReplaceAt(repo, map[], c, p);
      MovedInAt(tmp, repo, c, p);
      if StartsWith(p, c) { AncestorsAreComparable(c, d, p); }
      if ProperAncestor(p, c) { assert StartsWith(c, d); }
    }
    if StartsWith(d, c) {
      assert Away(live, repo', tmp', d);
    } else if Away(live, repo, tmp, d) {
      assert Away(live, repo', tmp', d);
    } else {
      assert Home(live, repo', d);
    }
  }

  /** One move keeps every state recoverable. */
  lemma MoveOut(live: Tree, repo: Tree, tmp: Tree, carried: seq<Path>, i: nat)
    requires AllLive(live, carried) && SafeOrder(carried) && i < |carried|
    requires CarriedUpTo(live, repo, tmp, carried, i) && carried[i] in repo
    ensures CarriedUpTo(live, MovedOut(repo, carried[i]), MovedIn(tmp, repo, carried[i]), carried, i + 1)
  {
    var c := carried[i];
    var repo', tmp' := MovedOut(repo, c), MovedIn(tmp, repo, c);
    forall p | !Covered(carried, p) ensures Get(repo', p) == Get(live, p) {
      ReplaceAt(repo, map[], c, p);
      assert c in carried;
    }
    forall d | d in carried ensures HomeOrAway(live, repo', tmp', d) {
      var k :| 0 <= k < |carried| && carried[k] == d;
      MoveKeepsOthers(live, repo, tmp, carried, i, k);
    }
    forall k | 0 <= k < i + 1 ensures Away(live, repo', tmp', carried[k]) {
      MoveKeepsOthers(live, repo, tmp, carried, i, k);
    }
  }

  lemma AbsentIsAway(live: Tree, repo: Tree, tmp: Tree, carried: seq<Path>, i: nat)
    requires AllLive(live, carried) && i < |carried|
    requires CarriedUpTo(live, repo, tmp, carried, i) && carried[i] !in repo
    ensures CarriedUpTo(live, repo, tmp, carried, i + 1)
  {
    assert carried[i] in carried;
    AbsentIsNotHome(live, repo, carried[i], carried[i]);
    assert HomeOrAway(live, repo, tmp, carried[i]);
  }

  /** Changing the staged tree only where the live copy of `c` is still home
      disturbs nothing that is away. */
  lemma StageMayChange(live: Tree, repo: Tree, tmp: Tree, tmp': Tree, carried: seq<Path>, i: nat)
    requires AllLive(live, carried) && SafeOrder(carried) && i < |carried|
    requires CarriedUpTo(live, repo, tmp, carried, i) && carried[i] in repo
    requires forall p :: !Comparable(p, carried[i]) ==> Get(tmp', p) == Get(tmp, p)
    ensures CarriedUpTo(live, repo, tmp', carried, i)
  {
    forall d | d in carried && Away(live, repo, tmp, d) ensures Away(live, repo, tmp', d) {
      var k :| 0 <= k < |carried| && carried[k] == d;
      NothingAboveMoves(live, repo, tmp, carried, i, k);
      forall p | StartsWith(p, d) ensures Get(tmp', p) == Get(live, p) {
        if Comparable(p, carried[i]) {
          if StartsWith(p, carried[i]) { AncestorsAreComparable(carried[i], d, p); }
        }
      }
    }
    forall k | 0 <= k < i ensures Away(live, repo, tmp', carried[k]) {
      assert carried[k] in carried;
    }
  }

  // -------------------------------------------------------------------------
  // One move back
  // -------------------------------------------------------------------------

  /** Before the `i`-th move back: everything listed earlier is home. */
  ghost predicate BackUpTo(live: Tree, repo: Tree, tmp: Tree, carried: seq<Path>, i: nat)
    requires i <= |carried|
  {
    Halfway(live, repo, tmp, carried) && forall k :: 0 <= k < i ==> Home(live, repo, carried[k])
  }

  predicate MovesBack(repo: Tree, tmp: Tree, c: Path) {
    c in tmp && c !in repo
  }

  /** A path that is to move back is away whole, no carried path above it is
      away, and its directories are in the working tree. */
  lemma AwayAlone(live: Tree, repo: Tree, tmp: Tree, carried: seq<Path>, i: nat, k: nat)
    requires AllLive(live, carried) && SafeOrder(carried) && i < |carried| && k < |carried|
    requires BackUpTo(live, repo, tmp, carried, i) && carried[i] !in repo
    ensures Away(live, repo, tmp, carried[i])
    ensures StartsWith(carried[i], carried[k]) ==> carried[k] == carried[i]
  {
    var c, d := carried[i], carried[k];
    assert c in carried && d in carried;
    AbsentIsNotHome(live, repo, c, c);
    assert HomeOrAway(live, repo, tmp, c);
    if StartsWith(c, d) && c != d {
      AbsentIsNotHome(live, repo, c, d);
      if k > i {
        assert TakenEarlier(carried, i, k);
        var h :| 0 <= h < i && StartsWith(d, carried[h]);
        AbsentIsNotHome(live, repo, c, carried[h]);
      }
    }
  }

  lemma BackHasParents(live: Tree, repo: Tree, tmp: Tree, carried: seq<Path>, i: nat)
    requires AllLive(live, carried) && SafeOrder(carried) && i < |carried|
    requires BackUpTo(live, repo, tmp, carried, i) && carried[i] !in repo
    ensures ParentsInPlace(repo, carried[i])
  {
    var c := carried[i];
    assert c in carried;
    forall a | ProperAncestor(a, c) ensures Get(repo, a) == Some(Dir) {
      assert Get(live, a) == Some(Dir);
      if Covered(carried, a) {
        var d :| d in carried && StartsWith(a, d);
        var k :| 0 <= k < |carried| && carried[k] == d;
        AwayAlone(live, repo, tmp, carried, i, k);
      }
    }
  }

  /** What the working tree holds once `c` is back. */
  function MovedBack(repo: Tree, tmp: Tree, c: Path): Tree {
    Replace(repo, tmp, c)
  }

  lemma BackKeepsOthers(live: Tree, repo: Tree, tmp: Tree, carried: seq<Path>, i: nat, k: nat)
    requires AllLive(live, carried) && SafeOrder(carried) && i < |carried| && k < |carried|
    requires BackUpTo(live, repo, tmp, carried, i) && carried[i] !in repo
    ensures HomeOrAway(live, MovedBack(repo, tmp, carried[i]), MovedOut(tmp, carried[i]), carried[k])
    ensures k <= i ==> Home(live, MovedBack(repo, tmp, carried[i]), carried[k])
  {
    var c, d := carried[i], carried[k];
    var repo', tmp' := MovedBack(repo, tmp, c), MovedOut(tmp, c);
    assert c in carried && d in carried;
    AwayAlone(live, repo, tmp, carried, i, k);
    forall p | StartsWith(p, d)
      ensures StartsWith(d, c) ==> Get(repo', p) == Get(live, p)
      ensures Home(live, repo, d) ==> Get(repo', p) == Get(live, p)
      ensures Away(live, repo, tmp, d) && !StartsWith(d, c) ==> p !in repo' && Get(tmp', p) == Get(live, p)
    {
      ReplaceAt(repo, tmp, c, p);
      ReplaceAt(tmp, map[], c, p);
      if StartsWith(p, c) { AncestorsAreComparable(c, d, p); }
    }
    if StartsWith(d, c) || Home(live, repo, d) {
      assert Home(live, repo', d);
    } else {
      assert Away(live, repo', tmp', d);
    }
  }

  lemma MoveBackOne(live: Tree, repo: Tree, tmp: Tree, carried: seq<Path>, i: nat)
    requires AllLive(live, carried) && SafeOrder(carried) && i < |carried|
    requires BackUpTo(live, repo, tmp, carried, i) && carried[i] !in repo
    ensures BackUpTo(live, MovedBack(repo, tmp, carried[i]), MovedOut(tmp, carried[i]), carried, i + 1)
  {
    var c := carried[i];
    var repo', tmp' := MovedBack(repo, tmp, c), MovedOut(tmp, c);
    forall p | !Covered(carried, p) ensures Get(repo', p) == Get(live, p) {
      ReplaceAt(repo, tmp, c, p);
      assert c in carried;
    }
    forall d | d in carried ensures HomeOrAway(live, repo', tmp', d) {
      var k :| 0 <= k < |carried| && carried[k] == d;
      BackKeepsOthers(live, repo, tmp, carried, i, k);
    }
    forall k | 0 <= k < i + 1 ensures Home(live, repo', carried[k]) {
      BackKeepsOthers(live, repo, tmp, carried, i, k);
    }
  }

  /** A path that is not to move back is home already. */
  lemma NotMovedIsHome(live: Tree, repo: Tree, tmp: Tree, carried: seq<Path>, i: nat)
    requires AllLive(live, carried) && i < |carried|
    requires BackUpTo(live, repo, tmp, carried, i) && !MovesBack(repo, tmp, carried[i])
    ensures BackUpTo(live, repo, tmp, carried, i + 1)
  {
    var c := carried[i];
    assert c in carried;
    if c in repo {
      PresentIsNotAway(live, repo, tmp, c, c);
    } else {
      AbsentInStageIsNotAway(live, repo, tmp, c);
    }
    assert HomeOrAway(live, repo, tmp, c);
  }

  lemma AbsentInStageIsNotAway(live: Tree, repo: Tree, tmp: Tree, c: Path)
    requires c in live && c !in tmp
    ensures !Away(live, repo, tmp, c)
  {
    assert StartsWith(c, c) && Get(tmp, c) != Get(live, c);
  }

  /** With everything home the working tree is the old one. */
  lemma AllHome(live: Tree, repo: Tree, tmp: Tree, carried: seq<Path>)
    requires BackUpTo(live, repo, tmp, carried, |carried|)
    ensures repo == live
  {
    forall p ensures Get(repo, p) == Get(live, p) {
      if Covered(carried, p) {
        var c :| c in carried && StartsWith(p, c);
        var k :| 0 <= k < |carried| && carried[k] == c;
        assert Home(live, repo, carried[k]);
      }
    }
    TreesAgree(repo, live);
  }

  lemma OldIsHalfway(live: Tree, tmp: Tree, carried: seq<Path>)
    ensures Halfway(live, live, tmp, carried) && CarriedUpTo(live, live, tmp, carried, 0)
  {
    forall c | c in carried ensures HomeOrAway(live, live, tmp, c) {
      assert Home(live, live, c);
    }
  }

  // -------------------------------------------------------------------------
  // The restored tree
  // -------------------------------------------------------------------------

  ghost predicate OnTheWay(carried: seq<Path>, p: Path) {
    exists c :: c in carried && ProperAncestor(p, c)
  }

  /** The target generation, with the live copy at and beneath every carried
      path and the directories on the way to them. */
  ghost predicate IsRestored(t: Tree, target: Tree, live: Tree, carried: seq<Path>) {
    forall p :: Get(t, p) ==
      if Covered(carried, p) then Get(live, p)
      else if OnTheWay(carried, p) then Some(Dir)
      else Get(target, p)
  }

  /** The staged tree before the `i`-th move, away from the carried paths. */
  ghost predicate Staged(tmp: Tree, target: Tree, carried: seq<Path>, i: nat)
    requires i <= |carried|
  {
    forall p :: !Covered(carried, p) ==> Get(tmp, p) == if OnTheWay(carried[..i], p) then Some(Dir) else Get(target, p)
  }

  lemma OnTheWayGrows(before: seq<Path>, c: Path, p: Path)
    ensures OnTheWay(before + [c], p) <==> OnTheWay(before, p) || ProperAncestor(p, c)
  {
    assert c in before + [c];
    assert forall d :: d in before + [c] <==> d in before || d == c;
  }

  lemma StagedMove(tmp: Tree, repo: Tree, target: Tree, carried: seq<Path>, i: nat)
    requires i < |carried| && Staged(tmp, target, carried, i) && !ParentBlocked(tmp, carried[i])
    ensures Staged(MovedIn(tmp, repo, carried[i]), target, carried, i + 1)
  {
    var c := carried[i];
    assert carried[..i + 1] == carried[..i] + [c];
    forall p | !Covered(carried, p)
      ensures Get(MovedIn(tmp, repo, c), p) == if OnTheWay(carried[..i + 1], p) then Some(Dir) else Get(target, p)
    {
      assert c in carried;
      MovedInAt(tmp, repo, c, p);
      OnTheWayGrows(carried[..i], c, p);
      if ProperAncestor(p, c) {
        assert p in ParentSet(c);
      }
    }
  }

  /** A path taken along earlier adds no directory of its own. */
  lemma StagedSkip(tmp: Tree, target: Tree, carried: seq<Path>, i: nat)
    requires i < |carried| && Staged(tmp, target, carried, i)
    requires exists h :: 0 <= h < i && StartsWith(carried[i], carried[h])
    ensures Staged(tmp, target, carried, i + 1)
  {
    var c := carried[i];
    var h :| 0 <= h < i && StartsWith(c, carried[h]);
    assert carried[..i + 1] == carried[..i] + [c];
    forall p | !Covered(carried, p) ensures OnTheWay(carried[..i + 1], p) <==> OnTheWay(carried[..i], p) {
      OnTheWayGrows(carried[..i], c, p);
      if ProperAncestor(p, c) {
        AncestorsAreComparable(p, carried[h], c);
        assert carried[h] in carried;
        assert ProperAncestor(p, carried[h]) && carried[..i][h] == carried[h];
      }
    }
  }

  // -------------------------------------------------------------------------
  // Exactly which rule lists lose nothing
  // -------------------------------------------------------------------------

  /** One move: both trees after it, and whether it could be made.  A path that
      is not there any more is skipped; one whose directory is blocked in the
      staged tree stops the carry. */
  function Carried(repo: Tree, tmp: Tree, c: Path): (Tree, Tree, bool) {
    if c !in repo then (repo, tmp, true)
    else if ParentBlocked(tmp, c) then (repo, tmp, false)
    else (MovedOut(repo, c), MovedIn(tmp, repo, c), true)
  }

  /** All the moves in order, up to the first that cannot be made: `carry`. */
  function CarryAll(repo: Tree, tmp: Tree, carried: seq<Path>): (Tree, Tree, bool) {
    if carried == [] then (repo, tmp, true)
    else
      var k := |carried| - 1;
      var before := CarryAll(repo, tmp, carried[..k]);
      if before.2 then Carried(before.0, before.1, carried[k]) else before
  }

  lemma CarryAllNext(repo: Tree, tmp: Tree, carried: seq<Path>, i: nat)
    requires i < |carried|
    ensures var before := CarryAll(repo, tmp, carried[..i]);
            CarryAll(repo, tmp, carried[..i + 1]) ==
            if before.2 then Carried(before.0, before.1, carried[i]) else before
  {
    assert carried[..i + 1][..i] == carried[..i];
  }

  lemma {:induction false} CarryStopsAt(repo: Tree, tmp: Tree, carried: seq<Path>, i: nat, j: nat)
    requires i <= j <= |carried| && !CarryAll(repo, tmp, carried[..i]).2
    ensures CarryAll(repo, tmp, carried[..j]) == CarryAll(repo, tmp, carried[..i])
  {
    if i < j {
      CarryStopsAt(repo, tmp, carried, i, j - 1);
      CarryAllNext(repo, tmp, carried, j - 1);
    }
  }

  lemma CarriedSoFar(repo: Tree, tmp: Tree, carried: seq<Path>, i: nat)
    requires i < |carried| && CarryAll(repo, tmp, carried[..i + 1]).2
    ensures CarryAll(repo, tmp, carried[..i]).2
  {
    CarryAllNext(repo, tmp, carried, i);
  }

  lemma {:induction false} SafeCarryKeeps(live: Tree, target: Tree, carried: seq<Path>, i: nat)
    requires AllLive(live, carried) && SafeOrder(carried) && i <= |carried|
    requires CarryAll(live, target, carried[..i]).2
    ensures var now := CarryAll(live, target, carried[..i]);
            CarriedUpTo(live, now.0, now.1, carried, i)
  {
    if i == 0 {
      OldIsHalfway(live, target, carried);
    } else {
      CarriedSoFar(live, target, carried, i - 1);
      SafeCarryKeeps(live, target, carried, i - 1);
      CarryAllNext(live, target, carried, i - 1);
      var now := CarryAll(live, target, carried[..i - 1]);
      if carried[i - 1] in now.0 {
        MoveOut(live, now.0, now.1, carried, i - 1);
      } else {
        AbsentIsAway(live, now.0, now.1, carried, i - 1);
      }
    }
  }

  lemma CoveredGrows(before: seq<Path>, c: Path, p: Path)
    ensures Covered(before + [c], p) <==> Covered(before, p) || StartsWith(p, c)
  {
    assert c in before + [c];
    assert forall d :: d in before + [c] <==> d in before || d == c;
  }

  /** The working tree at a path, after the moves of `done`. */
  ghost predicate LeftAt(live: Tree, repo: Tree, done: seq<Path>, p: Path) {
    Get(repo, p) == if Covered(done, p) then None else Get(live, p)
  }

  lemma LeftStep(live: Tree, repo: Tree, tmp: Tree, done: seq<Path>, c: Path, p: Path)
    requires c in live && LeftAt(live, repo, done, p) && LeftAt(live, repo, done, c) && Carried(repo, tmp, c).2
    ensures LeftAt(live, Carried(repo, tmp, c).0, done + [c], p)
  {
    CoveredGrows(done, c, p);
    ReplaceAt(repo, map[], c, p);
    if c !in repo && StartsWith(p, c) {
      assert Covered(done, c);
      var d :| d in done && StartsWith(c, d);
      assert StartsWith(p, d);
    }
  }

  /** What the working tree still holds after the first `i` moves. */
  lemma {:induction false} LeftBehind(live: Tree, target: Tree, carried: seq<Path>, i: nat, p: Path)
    requires AllLive(live, carried) && i <= |carried| && CarryAll(live, target, carried[..i]).2
    ensures LeftAt(live, CarryAll(live, target, carried[..i]).0, carried[..i], p)
  {
    if i > 0 {
      var c, done := carried[i - 1], carried[..i - 1];
      assert c in carried && carried[..i] == done + [c];
      CarriedSoFar(live, target, carried, i - 1);
      LeftBehind(live, target, carried, i - 1, p);
      LeftBehind(live, target, carried, i - 1, c);
      CarryAllNext(live, target, carried, i - 1);
      var now := CarryAll(live, target, done);
      LeftStep(live, now.0, now.1, done, c, p);
    }
  }

  /** Nothing at or beneath `c` is left on either side. */
  ghost predicate Gone(repo: Tree, tmp: Tree, c: Path) {
    forall p :: StartsWith(p, c) ==> p !in repo && p !in tmp
  }

  ghost predicate Violation(carried: seq<Path>, i: nat, j: nat) {
    i < j < |carried| && StartsWith(carried[i], carried[j]) && carried[i] != carried[j] && !TakenEarlier(carried, i, j)
  }

  lemma TakenThrough(carried: seq<Path>, i: nat, h: nat, j: nat)
    requires i < |carried| && h < |carried| && j < |carried|
    requires TakenEarlier(carried, i, h) && StartsWith(carried[j], carried[h])
    ensures TakenEarlier(carried, i, j)
  {
    var e :| 0 <= e < i && StartsWith(carried[h], carried[e]);
    assert StartsWith(carried[j], carried[e]);
  }

  lemma SomeViolation(carried: seq<Path>) returns (i: nat, j: nat)
    requires !SafeOrder(carried)
    ensures Violation(carried, i, j)
  {
    i, j :| 0 <= i < j < |carried| && StartsWith(carried[i], carried[j]) && carried[i] != carried[j] &&
            !TakenEarlier(carried, i, j);
  }

  lemma {:induction false} FirstViolation(carried: seq<Path>, i: nat, j: nat) returns (least: nat)
    requires Violation(carried, i, j)
    ensures Violation(carried, i, least)
    ensures !Covered(carried[..least], carried[least])
    decreases j
  {
    if Covered(carried[..j], carried[j]) {
      var d :| d in carried[..j] && StartsWith(carried[j], d);
      var h :| 0 <= h < j && carried[h] == d;
      assert StartsWith(carried[i], carried[h]);
      assert h > i;
      if TakenEarlier(carried, i, h) {
        TakenThrough(carried, i, h, j);
      }
      least := FirstViolation(carried, i, h);
    } else {
      least := j;
    }
  }

  lemma {:induction false} GoneStaysGone(live: Tree, target: Tree, carried: seq<Path>, c: Path, i: nat, j: nat)
    requires i <= j <= |carried|
    requires var now := CarryAll(live, target, carried[..i]); Gone(now.0, now.1, c)
    ensures var now := CarryAll(live, target, carried[..j]); Gone(now.0, now.1, c)
  {
    if i < j {
      GoneStaysGone(live, target, carried, c, i, j - 1);
      CarryAllNext(live, target, carried, j - 1);
      var now, d := CarryAll(live, target, carried[..j - 1]), carried[j - 1];
      if d in now.0 {
        forall p | StartsWith(p, c) ensures p !in MovedOut(now.0, d) && p !in MovedIn(now.1, now.0, d) {
          ReplaceAt(now.0, map[], d, p);
          MovedInAt(now.1, now.0, d, p);
          assert ProperAncestor(p, d) ==> StartsWith(d, c);
        }
      }
    }
  }

  /** A directory listed after something in it takes the place of what was
      moved before: the copy in the staged tree is deleted. */
  lemma UnsafeCarryLoses(live: Tree, target: Tree, carried: seq<Path>, i: nat, j: nat)
    requires AllLive(live, carried) && Violation(carried, i, j) && CarryAll(live, target, carried).2
    ensures var now := CarryAll(live, target, carried); Gone(now.0, now.1, carried[i])
  {
    var k := FirstViolation(carried, i, j);
    assert carried[..|carried|] == carried;
    if !CarryAll(live, target, carried[..k + 1]).2 {
      CarryStopsAt(live, target, carried, k + 1, |carried|);
    }
    var c, d := carried[i], carried[k];
    var now := CarryAll(live, target, carried[..k]);
    assert c in carried && d in carried;
    CarriedSoFar(live, target, carried, k);
    LeftBehind(live, target, carried, k, d);
    CarryAllNext(live, target, carried, k);
    forall p | StartsWith(p, c) ensures p !in MovedOut(now.0, d) && p !in MovedIn(now.1, now.0, d) {
      LeftBehind(live, target, carried, k, p);
      assert carried[..k][i] == c;
      assert c in carried[..k];
      ReplaceAt(now.0, map[], d, p);
      MovedInAt(now.1, now.0, d, p);
      assert StartsWith(p, d);
    }
    GoneStaysGone(live, target, carried, c, k + 1, |carried|);
  }

  // How far a carry gets, read off the target and the list alone.

  /** Something in the target stands where a directory for this path should. */
  ghost predicate StandsInTheWay(target: Tree, carried: seq<Path>, i: nat)
    requires i < |carried|
  {
    !Covered(carried[..i], carried[i]) && ParentBlocked(target, carried[i])
  }

  /** The number of paths dealt with before something stands in the way. */
  ghost function Reach(target: Tree, carried: seq<Path>): (n: nat)
    ensures n <= |carried|
    ensures forall i :: 0 <= i < n ==> !StandsInTheWay(target, carried, i)
    ensures n < |carried| ==> StandsInTheWay(target, carried, n)
  {
    if carried == [] then 0
    else
      var k := |carried| - 1;
      var n := Reach(target, carried[..k]);
      assert forall i :: 0 <= i < k ==>
        (StandsInTheWay(target, carried, i) <==> StandsInTheWay(target, carried[..k], i)) by {
        forall i | 0 <= i < k
          ensures StandsInTheWay(target, carried, i) <==> StandsInTheWay(target, carried[..k], i)
        {
          assert carried[..k][..i] == carried[..i];
        }
      }
      if n < k || StandsInTheWay(target, carried, k) then n else |carried|
  }

  /** The staged tree at a path outside what was moved so far. */
  ghost predicate StagedAt(tmp: Tree, target: Tree, done: seq<Path>, p: Path) {
    Get(tmp, p) == (if OnTheWay(done, p) then Some(Dir) else Get(target, p)) &&
    (OnTheWay(done, p) && p in target ==> target[p] == Dir)
  }

  lemma StagedStep(repo: Tree, tmp: Tree, target: Tree, done: seq<Path>, c: Path, p: Path)
    requires StagedAt(tmp, target, done, p) && !Covered(done + [c], p)
    requires Carried(repo, tmp, c).2 && (c !in repo ==> Covered(done, c))
    ensures StagedAt(Carried(repo, tmp, c).1, target, done + [c], p)
  {
    CoveredGrows(done, c, p);
    OnTheWayGrows(done, c, p);
    if c in repo {
      MovedInAt(tmp, repo, c, p);
      if ProperAncestor(p, c) {
        assert p in ParentSet(c);
      }
    } else if ProperAncestor(p, c) {
      var d :| d in done && StartsWith(c, d);
      AncestorsAreComparable(p, d, c);
      assert ProperAncestor(p, d);
    }
  }

  /** What the staged tree holds outside the paths moved so far. */
  lemma {:induction false} StagedPrefix(live: Tree, target: Tree, carried: seq<Path>, i: nat, p: Path)
    requires AllLive(live, carried) && i <= |carried| && CarryAll(live, target, carried[..i]).2
    requires !Covered(carried[..i], p)
    ensures StagedAt(CarryAll(live, target, carried[..i]).1, target, carried[..i], p)
  {
    if i > 0 {
      var k := i - 1;
      var c, done := carried[k], carried[..k];
      assert c in carried && carried[..i] == done + [c];
      CarriedSoFar(live, target, carried, k);
      CarryAllNext(live, target, carried, k);
      CoveredGrows(done, c, p);
      StagedPrefix(live, target, carried, k, p);
      LeftBehind(live, target, carried, k, c);
      var now := CarryAll(live, target, done);
      if c !in now.0 {
        assert Get(now.0, c) == None;
      }
      StagedStep(now.0, now.1, target, done, c, p);
    }
  }

  lemma BlockedInTheTarget(live: Tree, target: Tree, carried: seq<Path>, i: nat)
    requires AllLive(live, carried) && i < |carried| && CarryAll(live, target, carried[..i]).2
    requires !Covered(carried[..i], carried[i])
    ensures ParentBlocked(CarryAll(live, target, carried[..i]).1, carried[i]) <==> ParentBlocked(target, carried[i])
  {
    var c, tmp := carried[i], CarryAll(live, target, carried[..i]).1;
    forall a | a in ParentSet(c) ensures (a in tmp && tmp[a] != Dir) <==> (a in target && target[a] != Dir) {
      if Covered(carried[..i], a) {
        var d :| d in carried[..i] && StartsWith(a, d);
        assert StartsWith(c, d);
      }
      StagedPrefix(live, target, carried, i, a);
    }
  }

  lemma CarryGoesOn(live: Tree, target: Tree, carried: seq<Path>, i: nat)
    requires AllLive(live, carried) && i < |carried| && CarryAll(live, target, carried[..i]).2
    ensures CarryAll(live, target, carried[..i + 1]).2 <==> !StandsInTheWay(target, carried, i)
  {
    CarryAllNext(live, target, carried, i);
    assert carried[i] in carried;
    LeftBehind(live, target, carried, i, carried[i]);
    var now := CarryAll(live, target, carried[..i]);
    if Covered(carried[..i], carried[i]) {
      assert Get(now.0, carried[i]) == None;
    } else {
      assert Get(now.0, carried[i]) == Get(live, carried[i]);
      BlockedInTheTarget(live, target, carried, i);
    }
  }

  /** A carry gets as far as the target lets it. */
  lemma {:induction false} CarryReaches(live: Tree, target: Tree, carried: seq<Path>, i: nat)
    requires AllLive(live, carried) && i <= |carried|
    ensures CarryAll(live, target, carried[..i]).2 <==> i <= Reach(target, carried)
  {
    if i > 0 {
      CarryReaches(live, target, carried, i - 1);
      if CarryAll(live, target, carried[..i - 1]).2 {
        CarryGoesOn(live, target, carried, i - 1);
      } else {
        CarryStopsAt(live, target, carried, i - 1, i);
      }
    }
  }

  lemma CarryStops(live: Tree, target: Tree, carried: seq<Path>)
    requires AllLive(live, carried)
    ensures var now, n := CarryAll(live, target, carried), Reach(target, carried);
            var upTo := CarryAll(live, target, carried[..n]);
            (now.2 <==> n == |carried|) && upTo.2 && (now.0, now.1) == (upTo.0, upTo.1)
  {
    var n := Reach(target, carried);
    assert carried[..|carried|] == carried;
    CarryReaches(live, target, carried, n);
    CarryReaches(live, target, carried, |carried|);
    if n < |carried| {
      CarryReaches(live, target, carried, n + 1);
      CarryAllNext(live, target, carried, n);
      CarryStopsAt(live, target, carried, n + 1, |carried|);
    }
  }

  /** Every live path is still somewhere with its content. */
  ghost predicate NothingLost(live: Tree, repo: Tree, tmp: Tree) {
    forall p :: p in live ==> Get(repo, p) == Get(live, p) || Get(tmp, p) == Get(live, p)
  }

  /** A carry, whether it gets through or is stopped, loses no live file exactly
      when, among the paths it got to, none is listed before a directory it lies
      in that nothing earlier takes along. */
  lemma CarryLosesNothingExactlyWhenSafe(live: Tree, target: Tree, carried: seq<Path>)
    requires AllLive(live, carried)
    ensures var now, n := CarryAll(live, target, carried), Reach(target, carried);
            (now.2 <==> n == |carried|) && (NothingLost(live, now.0, now.1) <==> SafeOrder(carried[..n]))
  {
    var now, n := CarryAll(live, target, carried), Reach(target, carried);
    CarryStops(live, target, carried);
    var reached := carried[..n];
    assert reached[..n] == reached;
    forall c | c in reached ensures c in carried {}
    if SafeOrder(reached) {
      SafeCarryKeeps(live, target, reached, n);
      forall p | p in live ensures Get(now.0, p) == Get(live, p) || Get(now.1, p) == Get(live, p) {
        LeftBehind(live, target, reached, n, p);
        if Covered(reached, p) {
          var c :| c in reached && StartsWith(p, c);
          var k :| 0 <= k < n && reached[k] == c;
          assert Away(live, now.0, now.1, reached[k]);
        }
      }
    } else {
      var i, j := SomeViolation(reached);
      UnsafeCarryLoses(live, target, reached, i, j);
      assert reached[i] in reached && StartsWith(reached[i], reached[i]);
      assert Get(now.0, reached[i]) == Get(now.1, reached[i]) == None;
    }
  }

  /** A carry that gets through moves every live copy, whole, exactly when the
      list is safe. */
  lemma CarryMovesAllExactlyWhenSafe(live: Tree, target: Tree, carried: seq<Path>)
    requires AllLive(live, carried) && CarryAll(live, target, carried).2
    ensures var now := CarryAll(live, target, carried);
            (forall c :: c in carried ==> Home(live, now.1, c)) <==> SafeOrder(carried)
  {
    assert carried[..|carried|] == carried;
    var now := CarryAll(live, target, carried);
    if SafeOrder(carried) {
      SafeCarryKeeps(live, target, carried, |carried|);
      forall c | c in carried ensures Home(live, now.1, c) {
        var k :| 0 <= k < |carried| && carried[k] == c;
        assert Away(live, now.0, now.1, carried[k]);
      }
    } else {
      var i, j := SomeViolation(carried);
      UnsafeCarryLoses(live, target, carried, i, j);
      assert carried[i] in carried && StartsWith(carried[i], carried[i]);
      assert Get(now.1, carried[i]) != Get(live, carried[i]);
    }
  }

  /** The smallest such list: a file, then the directory it is in. */
  lemma NestedRulesLose(target: Tree)
    ensures var live: Tree := map[["s"] := Dir, ["s", "a"] := Regular("key")];
            var now := CarryAll(live, target, [["s", "a"], ["s"]]);
            AllLive(live, [["s", "a"], ["s"]]) && (now.2 ==> Gone(now.0, now.1, ["s", "a"]))
    ensures CarryAll(map[["s"] := Dir, ["s", "a"] := Regular("key")], map[], [["s", "a"], ["s"]]).2
  {
    var live: Tree := map[["s"] := Dir, ["s", "a"] := Regular("key")];
    var carried := [["s", "a"], ["s"]];
    forall p, a | p in live && ProperAncestor(a, p) ensures a in live && live[a] == Dir {
      assert |a| == 1 && a[0] == p[0];
      assert a == ["s"];
    }
    assert Violation(carried, 0, 1);
    if CarryAll(live, target, carried).2 {
      UnsafeCarryLoses(live, target, carried, 0, 1);
    }
    forall i | 0 <= i < |carried| ensures !StandsInTheWay(map[], carried, i) {}
    CarryStops(live, map[], carried);
  }

  // -------------------------------------------------------------------------
  // What a halfway state holds
  // -------------------------------------------------------------------------

  /** What a halfway state holds is live, and so is everything above it. */
  lemma HalfwayIsLive(live: Tree, first: Tree, tmp: Tree, carried: seq<Path>, p: Path)
    requires AllLive(live, carried) && Halfway(live, first, tmp, carried)
    ensures p in first ==> Get(first, p) == Get(live, p)
    ensures forall a :: p in first && ProperAncestor(a, p) ==> a in first
    ensures forall c :: c in carried && StartsWith(p, c) ==> (p in first <==> c in first && p in live)
  {
    forall c | c in carried && StartsWith(p, c) ensures p in first <==> c in first && p in live {
      HomeOrGone(live, first, tmp, carried, c, p);
    }
    if Covered(carried, p) {
      var c :| c in carried && StartsWith(p, c);
      HomeOrGone(live, first, tmp, carried, c, p);
    }
    forall a | p in first && ProperAncestor(a, p) ensures a in first {
      assert p in live && a in live;
      if Covered(carried, a) {
        var d :| d in carried && StartsWith(a, d);
        HomeOrGone(live, first, tmp, carried, d, p);
        HomeOrGone(live, first, tmp, carried, d, a);
      } else {
        assert Get(first, a) == Get(live, a);
      }
    }
  }

  lemma HomeOrGone(live: Tree, first: Tree, tmp: Tree, carried: seq<Path>, c: Path, p: Path)
    requires AllLive(live, carried) && Halfway(live, first, tmp, carried) && c in carried && StartsWith(p, c)
    ensures if c in first then Get(first, p) == Get(live, p) else p !in first && Get(tmp, p) == Get(live, p)
  {
    assert HomeOrAway(live, first, tmp, c);
    assert c in live;
    if c in first {
      PresentIsNotAway(live, first, tmp, c, c);
    } else {
      AbsentIsNotHome(live, first, c, c);
    }
  }

  lemma Unnested(carried: seq<Path>, c: Path, d: Path)
    requires NoNesting(carried) && c in carried && d in carried && StartsWith(c, d)
    ensures c == d
  {
    var i :| 0 <= i < |carried| && carried[i] == c;
    var j :| 0 <= j < |carried| && carried[j] == d;
    assert StartsWith(carried[i], carried[j]);
  }
}
