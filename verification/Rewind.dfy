/** The journaled rewind of the working tree and its crash recovery.  A process
    is killed when its fuel runs out, between any two steps, and a tree being
    deleted or filled is then left with an arbitrary part.  Any operation of a
    process may also be broken and fail without the process being killed. */
module Rewind {
  import opened Paths
  import opened Trees
  import opened Writing
  import opened Carrying
  import opened Returning
  import opened Checkouts

  datatype Phase = Materializing | Carrying | Swapping

  datatype Journal = Journal(phase: Phase, carried: seq<Path>)

  /** The working tree, the staged sibling, the name a swap without an atomic
      exchange goes through, and the journal file. */
  datatype Disk = Disk(repo: Option<Tree>, tmp: Option<Tree>, scratch: Option<Tree>, journal: Option<Journal>)

  // -------------------------------------------------------------------------
  // Where a disk leads
  // -------------------------------------------------------------------------

  /** Recovery from here gives back the working tree as it was. */
  ghost predicate HeadsToOld(d: Disk, live: Tree) {
    d.repo.Some? &&
    match d.journal
    case None => d.repo.value == live
    case Some(Journal(Materializing, _)) => d.repo.value == live
    case Some(Journal(_, carried)) =>
      AllLive(live, carried) && SafeOrder(carried) &&
      if d.tmp.Some? then Halfway(live, d.repo.value, d.tmp.value, carried) else d.repo.value == live
  }

  /** Recovery from here gives the restored tree. */
  ghost predicate HeadsToNew(d: Disk, next: Tree) {
    match d.journal
    case None => d.repo == Some(next)
    case Some(Journal(phase, carried)) =>
      phase == Swapping && (forall c :: c in carried ==> c in next) &&
      (d.repo == Some(next) || (d.repo == None && d.tmp == Some(next)))
  }

  ghost predicate Part(t: Tree, whole: Tree) {
    forall p :: p in t ==> p in whole && t[p] == whole[p]
  }

  /** The live copy of `c`, whole, is in the working tree. */
  ghost predicate CopyInPlace(d: Disk, live: Tree, c: Path) {
    d.repo.Some? && Home(live, d.repo.value, c)
  }

  /** The live copy of `c`, whole, is in the staged tree, and nothing of it is in
      the working tree. */
  ghost predicate CopyInStage(d: Disk, live: Tree, c: Path) {
    d.tmp.Some? && Home(live, d.tmp.value, c) && (d.repo.Some? ==> Vacant(d.repo.value, c))
  }

  ghost predicate LiveCopyExists(d: Disk, live: Tree, c: Path) {
    CopyInPlace(d, live, c) || CopyInStage(d, live, c)
  }

  /** No state on either course has lost a live copy, or holds it twice: it is
      in the working tree or has left that for the staged one. */
  lemma NoLiveCopyIsLost(d: Disk, live: Tree, target: Tree, next: Tree, carried: seq<Path>, c: Path)
    requires AllLive(live, carried) && c in carried
    requires d.journal.Some? && d.journal.value.phase != Materializing ==> d.journal.value.carried == carried
    requires HeadsToOld(d, live) || (HeadsToNew(d, next) && IsRestored(next, target, live, carried))
    ensures CopyInPlace(d, live, c) <==> !CopyInStage(d, live, c)
  {
    if HeadsToOld(d, live) {
      if d.repo.value == live {
        assert Home(live, d.repo.value, c);
      } else {
        assert HomeOrAway(live, d.repo.value, d.tmp.value, c);
        assert Away(live, d.repo.value, d.tmp.value, c) ==> Home(live, d.tmp.value, c);
      }
    } else {
      RestoredHoldsLive(next, target, live, carried, c);
    }
    assert d.repo.Some? && Home(live, d.repo.value, c) ==> c in d.repo.value by {
      if d.repo.Some? && Home(live, d.repo.value, c) {
        HomeIsPresent(live, d.repo.value, c, c);
      }
    }
  }

  /** The rules whose paths exist in the working tree. */
  function LiveRules(rules: seq<Path>, repo: Tree): seq<Path> {
    Retain(rules, c => c in repo)
  }

  /** The rules that are live, and no other path, in the order of the rules. */
  lemma {:induction false} LiveRulesExactly(rules: seq<Path>, more: seq<Path>, repo: Tree, c: Path)
    ensures c in LiveRules(rules, repo) <==> c in rules && c in repo
    ensures LiveRules(rules + more, repo) == LiveRules(rules, repo) + LiveRules(more, repo)
    decreases |rules|
  {
    if rules == [] {
      assert rules + more == more;
    } else {
      LiveRulesExactly(rules[1..], more, repo, c);
      assert (rules + more)[1..] == rules[1..] + more;
    }
  }

  /** At or beneath a rule whose own path is in the working tree. */
  ghost predicate UnderLiveRule(rules: seq<Path>, live: Tree, p: Path) {
    exists r :: r in rules && r in live && StartsWith(p, r)
  }

  ghost predicate AboveLiveRule(rules: seq<Path>, live: Tree, p: Path) {
    exists r :: r in rules && r in live && ProperAncestor(p, r)
  }

  /** What a rewind is for: what the rules name is as it was, with its directories,
      and everything else is the target's. */
  ghost predicate IsRewound(t: Tree, target: Tree, rules: seq<Path>, live: Tree) {
    forall p :: Get(t, p) ==
      if UnderLiveRule(rules, live, p) then Get(live, p)
      else if AboveLiveRule(rules, live, p) then Some(Dir)
      else Get(target, p)
  }

  ghost predicate HoldsExcluded(t: Tree, rules: seq<Path>, live: Tree) {
    forall p :: p in live && Covered(rules, p) ==> Get(t, p) == Some(live[p])
  }

  lemma RewoundHoldsExcluded(t: Tree, target: Tree, rules: seq<Path>, live: Tree)
    requires WellFormed(live) && [] !in rules && IsRewound(t, target, rules, live)
    ensures HoldsExcluded(t, rules, live)
  {
    forall p | p in live && Covered(rules, p) ensures Get(t, p) == Some(live[p]) {
      var r :| r in rules && StartsWith(p, r);
      assert r == p || ProperAncestor(r, p);
      assert UnderLiveRule(rules, live, p);
    }
  }

  lemma RestoredIsRewound(t: Tree, target: Tree, rules: seq<Path>, live: Tree)
    requires WellFormed(live) && [] !in rules
    ensures IsRestored(t, target, live, LiveRules(rules, live)) <==> IsRewound(t, target, rules, live)
    ensures IsRewound(t, target, rules, live) ==> HoldsExcluded(t, rules, live)
  {
    var carried := LiveRules(rules, live);
    forall c ensures c in carried <==> c in rules && c in live {
      LiveRulesExactly(rules, [], live, c);
    }
    forall p ensures Covered(carried, p) <==> UnderLiveRule(rules, live, p) {}
    forall p ensures OnTheWay(carried, p) <==> AboveLiveRule(rules, live, p) {}
    if IsRewound(t, target, rules, live) {
      RewoundHoldsExcluded(t, target, rules, live);
    }
  }

  lemma RestoredRewinds(target: Tree, rules: seq<Path>, live: Tree)
    requires WellFormed(live) && [] !in rules
    ensures forall t :: IsRestored(t, target, live, LiveRules(rules, live)) ==>
      IsRewound(t, target, rules, live) && HoldsExcluded(t, rules, live)
  {
    forall t | IsRestored(t, target, live, LiveRules(rules, live))
      ensures IsRewound(t, target, rules, live) && HoldsExcluded(t, rules, live)
    {
      RestoredIsRewound(t, target, rules, live);
    }
  }

  lemma NothingToCarry(rules: seq<Path>)
    ensures LiveRules(rules, map[]) == []
  {
    var none: Tree := map[];
    RetainNone(rules, c => c in none);
  }

  /** Only what the first `i` moves took is missing. */
  ghost predicate TakenAlong(live: Tree, repo: Tree, carried: seq<Path>, i: nat)
    requires i <= |carried|
  {
    forall p :: p in live && p !in repo ==> Covered(carried[..i], p)
  }

  /** The state before the `i`-th move of a carry that goes well. */
  ghost predicate OnCourse(live: Tree, target: Tree, repo: Tree, tmp: Tree, carried: seq<Path>, i: nat)
    requires i <= |carried|
  {
    CarriedUpTo(live, repo, tmp, carried, i) && Staged(tmp, target, carried, i) && TakenAlong(live, repo, carried, i)
  }

  lemma TakenAlongGrows(live: Tree, repo: Tree, repo': Tree, carried: seq<Path>, i: nat)
    requires i < |carried| && TakenAlong(live, repo, carried, i)
    requires forall p :: p in repo && !StartsWith(p, carried[i]) ==> p in repo'
    ensures TakenAlong(live, repo', carried, i + 1)
  {
    assert carried[..i + 1] == carried[..i] + [carried[i]];
    forall p | p in live && p !in repo' ensures Covered(carried[..i + 1], p) {
      CoveredGrows(carried[..i], carried[i], p);
    }
  }

  lemma CarryStep(live: Tree, target: Tree, repo: Tree, tmp: Tree, carried: seq<Path>, i: nat)
    requires AllLive(live, carried) && SafeOrder(carried) && i < |carried| && carried[i] in repo
    requires OnCourse(live, target, repo, tmp, carried, i) && !ParentBlocked(tmp, carried[i])
    ensures OnCourse(live, target, MovedOut(repo, carried[i]), MovedIn(tmp, repo, carried[i]), carried, i + 1)
  {
    MoveOut(live, repo, tmp, carried, i);
    StagedMove(tmp, repo, target, carried, i);
    forall p | p in repo && !StartsWith(p, carried[i]) ensures p in MovedOut(repo, carried[i]) {
      ReplaceAt(repo, map[], carried[i], p);
    }
    TakenAlongGrows(live, repo, MovedOut(repo, carried[i]), carried, i);
  }

  lemma TakenByAnEarlierMove(live: Tree, repo: Tree, carried: seq<Path>, i: nat)
    requires AllLive(live, carried) && i < |carried| && carried[i] !in repo && TakenAlong(live, repo, carried, i)
    ensures exists h :: 0 <= h < i && StartsWith(carried[i], carried[h])
  {
    assert carried[i] in carried;
    var d :| d in carried[..i] && StartsWith(carried[i], d);
    var h :| 0 <= h < i && carried[..i][h] == d;
    assert carried[h] == d;
  }

  lemma CarrySkip(live: Tree, target: Tree, repo: Tree, tmp: Tree, carried: seq<Path>, i: nat)
    requires AllLive(live, carried) && SafeOrder(carried) && i < |carried| && carried[i] !in repo
    requires OnCourse(live, target, repo, tmp, carried, i)
    ensures OnCourse(live, target, repo, tmp, carried, i + 1)
  {
    AbsentIsAway(live, repo, tmp, carried, i);
    TakenByAnEarlierMove(live, repo, carried, i);
    StagedSkip(tmp, target, carried, i);
    TakenAlongGrows(live, repo, repo, carried, i);
  }

  /** Making room for `c` in the staged tree loses nothing. */
  lemma CarryPrepared(live: Tree, repo: Tree, tmp: Tree, cleared: Tree, carried: seq<Path>, i: nat)
    requires AllLive(live, carried) && SafeOrder(carried) && i < |carried| && carried[i] in repo
    requires CarriedUpTo(live, repo, tmp, carried, i)
    requires forall p :: !StartsWith(p, carried[i]) ==> Get(cleared, p) == Get(MakeParents(tmp, carried[i]), p)
    ensures CarriedUpTo(live, repo, cleared, carried, i)
  {
    forall p | !Comparable(p, carried[i]) ensures Get(cleared, p) == Get(tmp, p) {
      MakeParentsAt(tmp, carried[i], p);
    }
    StageMayChange(live, repo, tmp, cleared, carried, i);
  }

  lemma CarryMoved(repo: Tree, tmp: Tree, cleared: Tree, c: Path)
    requires forall p :: !StartsWith(p, c) ==> Get(cleared, p) == Get(MakeParents(tmp, c), p)
    ensures Replace(cleared, repo, c) == MovedIn(tmp, repo, c)
  {
    forall p ensures Get(Replace(cleared, repo, c), p) == Get(MovedIn(tmp, repo, c), p) {
      ReplaceAt(cleared, repo, c, p);
      ReplaceAt(MakeParents(tmp, c), repo, c, p);
    }
    TreesAgree(Replace(cleared, repo, c), MovedIn(tmp, repo, c));
  }

  lemma BackStep(live: Tree, repo: Tree, tmp: Tree, carried: seq<Path>, i: nat)
    requires AllLive(live, carried) && SafeOrder(carried) && i < |carried|
    requires BackUpTo(live, repo, tmp, carried, i) && MovesBack(repo, tmp, carried[i])
    ensures MakeParents(repo, carried[i]) == repo && ParentReady(repo, carried[i])
    ensures BackUpTo(live, MovedBack(repo, tmp, carried[i]), MovedOut(tmp, carried[i]), carried, i + 1)
  {
    var c := carried[i];
    assert c in carried;
    BackHasParents(live, repo, tmp, carried, i);
    MakeParentsIsIdle(repo, c);
    if |c| > 1 {
      assert ProperAncestor(Parent(c), c);
    }
    MoveBackOne(live, repo, tmp, carried, i);
  }

  /** With the working tree as it was, the staged tree does not matter. */
  lemma AnyStage(live: Tree, carried: seq<Path>)
    ensures forall tmp: Tree :: Halfway(live, live, tmp, carried)
  {
    forall tmp: Tree ensures Halfway(live, live, tmp, carried) {
      OldIsHalfway(live, tmp, carried);
    }
  }

  /** Once everything is carried, the staged tree is the restored one. */
  lemma CarriedIsRestored(live: Tree, repo: Tree, tmp: Tree, target: Tree, carried: seq<Path>)
    requires CarriedUpTo(live, repo, tmp, carried, |carried|) && Staged(tmp, target, carried, |carried|)
    ensures IsRestored(tmp, target, live, carried)
  {
    assert carried[..|carried|] == carried;
    forall p | Covered(carried, p) ensures Get(tmp, p) == Get(live, p) {
      var c :| c in carried && StartsWith(p, c);
      var k :| 0 <= k < |carried| && carried[k] == c;
      assert Away(live, repo, tmp, carried[k]);
    }
  }

  lemma NextHoldsCarried(next: Tree, target: Tree, live: Tree, carried: seq<Path>)
    requires IsRestored(next, target, live, carried) && AllLive(live, carried)
    ensures forall c :: c in carried ==> c in next
  {
    forall c | c in carried ensures c in next {
      assert StartsWith(c, c) && Covered(carried, c);
      assert Get(next, c) == Get(live, c);
    }
  }

  // -------------------------------------------------------------------------
  // A machine that can be killed
  // -------------------------------------------------------------------------

  /** The operations that can fail. */
  datatype Op =
    | ClearStage | CreateStage | FillStage | DropStage | ParkOld
    | WriteJournal(phase: Phase) | ClearJournal
    | MakeRoom(path: Path) | ClearRoom(path: Path) | MoveOver(path: Path)
    | MakeWay(path: Path) | MoveHome(path: Path)
    | ExchangeDirs | ClearScratch | MoveAside | MoveIn | MoveAsideBack | MoveAsideOver | FinishSwap

  /** A lost rename back is the one failure that recovery ignores and that can
      cost a live copy. */
  predicate MovesHomeWork(carried: seq<Path>, broken: set<Op>) {
    forall c :: c in carried ==> MoveHome(c) !in broken
  }

  predicate OnlySwapBroken(broken: set<Op>) {
    broken <= {ExchangeDirs, MoveAside, MoveIn, MoveAsideBack}
  }

  /** The exchange does not publish the staged tree. */
  predicate SwapFails(windows: bool, broken: set<Op>) {
    if windows then MoveAside in broken || MoveIn in broken else ExchangeDirs in broken
  }

  /** It has already moved the working tree aside, and leaves it there. */
  predicate SwapVacates(windows: bool, broken: set<Op>) {
    windows && MoveAside !in broken && MoveIn in broken && MoveAsideBack in broken
  }

  /** The disk after an exchange that failed, on a process that lives on. */
  function AfterFailedSwap(d: Disk, windows: bool, broken: set<Op>): Disk {
    if !windows then d
    else if SwapVacates(windows, broken) && d.repo.Some? then d.(repo := None, scratch := d.repo)
    else d.(scratch := None)
  }

  predicate CleanupWorks(broken: set<Op>) {
    DropStage !in broken && ClearScratch !in broken
  }

  /** One process: how long it lives, and what fails in it. */
  datatype Life = Life(fuel: nat, broken: set<Op>)

  class Host {
    var disk: Disk
    /** How many more steps the process takes before it is killed. */
    var fuel: nat
    var alive: bool
    /** What fails in this process. */
    var broken: set<Op>
    /** No atomic exchange: a swap takes three renames. */
    const windows: bool

    constructor (repo: Tree, windows: bool, life: Life)
      ensures disk == Disk(Some(repo), None, None, None)
      ensures alive && fuel == life.fuel && broken == life.broken && this.windows == windows
    {
      disk := Disk(Some(repo), None, None, None);
      fuel, alive, broken, this.windows := life.fuel, true, life.broken, windows;
    }

    /** At most `n` steps: with that much fuel the process survives them, and a
        dead one changes nothing. */
    twostate predicate Spent(n: nat)
      reads this
    {
      (alive ==> old(alive)) && (old(alive) && old(fuel) >= n ==> alive && fuel >= old(fuel) - n) &&
      (!old(alive) ==> disk == old(disk)) && fuel <= old(fuel) && broken == old(broken)
    }

    /** The process goes on, or a new one takes over, with its own time to live
        and its own failures. */
    method Restart(life: Life)
      modifies `alive, `fuel, `broken
      ensures alive && fuel == life.fuel && broken == life.broken
    {
      alive, fuel, broken := true, life.fuel, life.broken;
    }

    /** One step, unless the process is dead or dies here. */
    method Step() returns (go: bool)
      modifies `fuel, `alive
      ensures Spent(1) && go == alive
    {
      if alive && fuel > 0 {
        fuel := fuel - 1;
        return true;
      }
      alive := false;
      go := false;
    }

    method SomePart(t: Tree) returns (part: Tree)
      ensures Part(part, t)
    {
      var left: set<Path> := *;
      part := map p | p in t && p in left :: t[p];
    }

    /** A recursive removal of the staged tree, its failure ignored. */
    method RemoveTmp(op: Op)
      modifies this
      ensures Spent(1) && disk == old(disk).(tmp := disk.tmp)
      ensures disk.tmp.Some? ==> old(disk.tmp).Some? && Part(disk.tmp.value, old(disk.tmp.value))
      ensures alive && op !in broken ==> disk.tmp == None
    {
      var was := alive;
      var go := Step();
      if was && disk.tmp.Some? {
        if go && op !in broken {
          disk := disk.(tmp := None);
        } else {
          var part := SomePart(disk.tmp.value);
          disk := disk.(tmp := Some(part));
        }
      }
    }

    /** `let _ = remove_any(scratch)` */
    method RemoveScratch()
      modifies this
      ensures Spent(1) && disk == old(disk).(scratch := disk.scratch)
      ensures alive && ClearScratch !in broken ==> disk.scratch == None
    {
      var was := alive;
      var go := Step();
      if was && disk.scratch.Some? {
        if go && ClearScratch !in broken {
          disk := disk.(scratch := None);
        } else {
          var part := SomePart(disk.scratch.value);
          disk := disk.(scratch := Some(part));
        }
      }
    }

    method CreateTmp() returns (ok: bool)
      modifies this
      ensures Spent(1)
      ensures ok == (alive && CreateStage !in broken && old(disk.tmp) == None)
      ensures disk == if ok then old(disk).(tmp := Some(map[])) else old(disk)
    {
      var go := Step();
      ok := go && CreateStage !in broken && disk.tmp == None;
      if ok {
        disk := disk.(tmp := Some(map[]));
      }
    }

    /** The journal is written beside and renamed into place: all or nothing. */
    method PutJournal(j: Journal) returns (ok: bool)
      modifies this
      ensures Spent(1) && ok == (alive && WriteJournal(j.phase) !in broken)
      ensures disk == if ok then old(disk).(journal := Some(j)) else old(disk)
    {
      var go := Step();
      ok := go && WriteJournal(j.phase) !in broken;
      if ok {
        disk := disk.(journal := Some(j));
      }
    }

    method RemoveJournal() returns (ok: bool)
      modifies this
      ensures Spent(1) && ok == (alive && ClearJournal !in broken)
      ensures disk == if ok then old(disk).(journal := None) else old(disk)
    {
      var go := Step();
      ok := go && ClearJournal !in broken;
      if ok {
        disk := disk.(journal := None);
      }
    }

    method Materialize(target: Tree) returns (ok: bool)
      requires disk.tmp.Some?
      modifies this
      ensures Spent(1) && ok == (alive && FillStage !in broken)
      ensures disk == old(disk).(tmp := disk.tmp) && disk.tmp.Some?
      ensures ok ==> disk.tmp == Some(target)
    {
      var was := alive;
      var go := Step();
      ok := go && FillStage !in broken;
      if ok {
        disk := disk.(tmp := Some(target));
      } else if was {
        var part := SomePart(target);
        disk := disk.(tmp := Some(part));
      }
    }

    // -----------------------------------------------------------------------
    // Carrying excluded paths over and back
    // -----------------------------------------------------------------------

    /** `create_dir_all` in the staged tree. */
    method MakeTmpParents(c: Path) returns (ok: bool)
      requires disk.tmp.Some?
      modifies this
      ensures Spent(1) && ok == (alive && MakeRoom(c) !in broken && !ParentBlocked(old(disk.tmp.value), c))
      ensures disk == if ok then old(disk).(tmp := Some(MakeParents(old(disk.tmp.value), c))) else old(disk)
    {
      var go := Step();
      ok := go && MakeRoom(c) !in broken && !ParentBlocked(disk.tmp.value, c);
      if ok {
        disk := disk.(tmp := Some(MakeParents(disk.tmp.value, c)));
      }
    }

    /** `let _ = remove_any(destination)` */
    method ClearInTmp(c: Path)
      requires disk.tmp.Some?
      modifies this
      ensures Spent(1)
      ensures disk == old(disk).(tmp := disk.tmp) && disk.tmp.Some?
      ensures forall p :: !StartsWith(p, c) ==> Get(disk.tmp.value, p) == Get(old(disk.tmp.value), p)
      ensures alive && ClearRoom(c) !in broken ==> Vacant(disk.tmp.value, c)
    {
      var was := alive;
      var go := Step();
      if was {
        var part := SomePart(disk.tmp.value);
        var left: Tree := if go && ClearRoom(c) !in broken then map[] else part;
        ghost var before := disk.tmp.value;
        disk := disk.(tmp := Some(Replace(disk.tmp.value, left, c)));
        forall p | !StartsWith(p, c) ensures Get(disk.tmp.value, p) == Get(before, p) {
          ReplaceAt(before, left, c, p);
        }
      }
    }

    /** `rename` of one path from the working tree into the staged one. */
    method RenameOut(c: Path) returns (ok: bool)
      requires disk.repo.Some? && disk.tmp.Some? && c in disk.repo.value
      modifies this
      ensures Spent(1)
      ensures ok ==> alive
      ensures ParentReady(old(disk.tmp.value), c) && Vacant(old(disk.tmp.value), c) ==>
        ok == (alive && MoveOver(c) !in broken)
      ensures disk == if ok then
          old(disk).(repo := Some(MovedOut(old(disk.repo.value), c)),
                     tmp := Some(Replace(old(disk.tmp.value), old(disk.repo.value), c)))
        else old(disk)
    {
      var go := Step();
      ok := go && MoveOver(c) !in broken && ParentReady(disk.tmp.value, c) &&
        GivesWay(disk.tmp.value, disk.repo.value[c], c);
      if ok {
        disk := disk.(repo := Some(MovedOut(disk.repo.value, c)),
                      tmp := Some(Replace(disk.tmp.value, disk.repo.value, c)));
      }
    }

    /** Moves one path into the staged tree, replacing what it had there; a path
        that is not in the working tree any more is skipped. */
    method CarryOne(carried: seq<Path>, i: nat, ghost live: Tree, ghost target: Tree) returns (ok: bool)
      requires i < |carried| && carried[i] != [] && disk.repo.Some? && disk.tmp.Some? && alive
      modifies this
      ensures Spent(3)
      ensures disk == old(disk).(repo := disk.repo, tmp := disk.tmp) && disk.repo.Some? && disk.tmp.Some?
      ensures ok ==> alive && (disk.repo.value, disk.tmp.value, true) ==
                              Carried(old(disk.repo.value), old(disk.tmp.value), carried[i])
      ensures old(fuel) >= 3 && CarryWorks(broken) ==>
        (disk.repo.value, disk.tmp.value, ok) == Carried(old(disk.repo.value), old(disk.tmp.value), carried[i])
      ensures old(OnSafeCourse(live, target, disk, carried, i)) ==>
        Halfway(live, disk.repo.value, disk.tmp.value, carried) &&
        (ok ==> OnSafeCourse(live, target, disk, carried, i + 1))
    {
      var c := carried[i];
      ghost var repo, tmp := disk.repo.value, disk.tmp.value;
      ghost var safe := OnSafeCourse(live, target, disk, carried, i);
      if c !in disk.repo.value {
        if safe {
          CarrySkip(live, target, repo, tmp, carried, i);
        }
        return true;
      }
      ok := MakeTmpParents(c);
      if !ok {
        return;
      }
      ParentsMadeAreReady(tmp, c);
      ghost var made := disk.tmp.value;
      ClearInTmp(c);
      ghost var cleared := disk.tmp.value;
      StaysReady(made, cleared, c);
      if safe {
        CarryPrepared(live, repo, tmp, cleared, carried, i);
      }
      ok := RenameOut(c);
      if ok {
        CarryMoved(repo, tmp, cleared, c);
        if safe {
          CarryStep(live, target, repo, tmp, carried, i);
        }
      }
    }

    /** Moves the paths in order and stops at the first failure. */
    method Carry(carried: seq<Path>, ghost live: Tree, ghost target: Tree) returns (ok: bool)
      requires AllLive(live, carried) && alive
      requires disk.repo == Some(live) && disk.tmp == Some(target)
      modifies this
      ensures Spent(3 * |carried|)
      ensures disk == old(disk).(repo := disk.repo, tmp := disk.tmp) && disk.repo.Some? && disk.tmp.Some?
      ensures ok ==> alive && (disk.repo.value, disk.tmp.value, true) == CarryAll(live, target, carried)
      ensures old(fuel) >= 3 * |carried| && CarryWorks(broken) ==>
        (disk.repo.value, disk.tmp.value, ok) == CarryAll(live, target, carried)
      ensures SafeOrder(carried) ==>
        Halfway(live, disk.repo.value, disk.tmp.value, carried) &&
        (ok ==> OnSafeCourse(live, target, disk, carried, |carried|))
    {
      OldIsHalfway(live, target, carried);
      assert carried[..0] == [];
      ok := true;
      for i := 0 to |carried|
        invariant alive && Spent(3 * i)
        invariant disk == old(disk).(repo := disk.repo, tmp := disk.tmp) && disk.repo.Some? && disk.tmp.Some?
        invariant ok && (SafeOrder(carried) ==> OnSafeCourse(live, target, disk, carried, i))
        invariant (disk.repo.value, disk.tmp.value, true) == CarryAll(live, target, carried[..i])
      {
        assert carried[i] in carried;
        CarryAllNext(live, target, carried, i);
        ok := CarryOne(carried, i, live, target);
        if !ok {
          CarriedToTheEnd(live, target, carried, i + 1);
          return;
        }
      }
      assert carried[..|carried|] == carried;
    }

    /** `let _ = create_dir_all` in the working tree. */
    method MakeRepoParents(c: Path)
      requires disk.repo.Some?
      modifies this
      ensures Spent(1)
      ensures disk == old(disk) || disk == old(disk).(repo := Some(MakeParents(old(disk.repo.value), c)))
      ensures alive && MakeWay(c) in broken ==> disk == old(disk)
      ensures alive && MakeWay(c) !in broken && !ParentBlocked(old(disk.repo.value), c) ==>
        disk == old(disk).(repo := Some(MakeParents(old(disk.repo.value), c)))
    {
      var go := Step();
      if go && MakeWay(c) !in broken && !ParentBlocked(disk.repo.value, c) {
        disk := disk.(repo := Some(MakeParents(disk.repo.value, c)));
      }
    }

    /** `let _ = rename` back into the working tree. */
    method RenameBack(c: Path)
      requires disk.repo.Some? && disk.tmp.Some?
      modifies this
      ensures Spent(1)
      ensures MoveHome(c) in broken || !alive || !ParentReady(old(disk.repo.value), c) ==> disk == old(disk)
      ensures !(MoveHome(c) in broken || !alive || !ParentReady(old(disk.repo.value), c)) ==>
        disk == old(disk).(repo := Some(MovedBack(old(disk.repo.value), old(disk.tmp.value), c)),
                           tmp := Some(MovedOut(old(disk.tmp.value), c)))
    {
      var go := Step();
      if go && MoveHome(c) !in broken && ParentReady(disk.repo.value, c) {
        disk := disk.(repo := Some(MovedBack(disk.repo.value, disk.tmp.value, c)),
                      tmp := Some(MovedOut(disk.tmp.value, c)));
      }
    }

    /** Every listed path present in the staged tree and absent in the working
        tree goes back, as far as the renames work. */
    method MoveBack(carried: seq<Path>, ghost live: Tree)
      requires disk.repo.Some?
      modifies this
      ensures Spent(2 * |carried|)
      ensures disk == old(disk).(repo := disk.repo, tmp := disk.tmp) && disk.repo.Some?
      ensures disk.tmp.Some? <==> old(disk.tmp).Some?
      ensures old(disk.tmp) == None ==> disk == old(disk)
      ensures (forall c :: c in carried ==> c in old(disk.repo.value)) ==> disk == old(disk)
      ensures old(Unwindable(disk, carried, live)) && MovesHomeWork(carried, broken) ==>
        Unwindable(disk, carried, live) && (alive ==> disk.repo.value == live)
      ensures old(Unwindable(disk, carried, live)) && alive ==>
        BackAsFar(live, old(disk.repo.value), disk.repo.value, carried, TroubleOf(broken), |carried|)
    {
      ghost var first := disk;
      ghost var good := Unwindable(disk, carried, live) && MovesHomeWork(carried, broken);
      ghost var exact := Unwindable(disk, carried, live);
      if exact {
        NothingBackYet(live, disk.repo.value, disk.tmp.value, carried, TroubleOf(broken));
      }
      for i := 0 to |carried|
        invariant Spent(2 * i)
        invariant disk == old(disk).(repo := disk.repo, tmp := disk.tmp) && disk.repo.Some?
        invariant disk.tmp.Some? <==> old(disk.tmp).Some?
        invariant old(disk.tmp) == None ==> disk == old(disk)
        invariant (forall c :: c in carried ==> c in old(disk.repo.value)) ==> disk == old(disk)
        invariant good ==> ComingHome(live, disk, carried, alive, i)
        invariant exact && alive ==> PutBackSoFar(live, first, disk, carried, broken, i)
      {
        assert carried[i] in carried;
        MoveOneBack(carried, i, live, first);
      }
      if good && alive {
        AllHome(live, disk.repo.value, disk.tmp.value, carried);
      }
    }

    /** Makes the directories on the way to a path and tries to rename it. */
    method TryBack(c: Path)
      requires disk.repo.Some? && disk.tmp.Some?
      modifies this
      ensures Spent(2)
      ensures BackOutcome(c, broken, alive, old(disk), disk)
    {
      MakeRepoParents(c);
      RenameBack(c);
    }

    /** One turn of the moves back. */
    method MoveOneBack(carried: seq<Path>, i: nat, ghost live: Tree, ghost first: Disk)
      requires disk.repo.Some? && i < |carried|
      modifies this
      ensures Spent(2)
      ensures disk == old(disk).(repo := disk.repo, tmp := disk.tmp) && disk.repo.Some?
      ensures disk.tmp.Some? <==> old(disk.tmp).Some?
      ensures old(disk.tmp) == None || carried[i] in old(disk.repo.value) ==> disk == old(disk)
      ensures old(ComingHome(live, disk, carried, alive, i)) && MovesHomeWork(carried, broken) ==>
        ComingHome(live, disk, carried, alive, i + 1)
      ensures (Unwindable(first, carried, live) && alive &&
               PutBackSoFar(live, first, old(disk), carried, broken, i)) ==>
        PutBackSoFar(live, first, disk, carried, broken, i + 1)
    {
      var c := carried[i];
      assert c in carried;
      ghost var before, lived := disk, alive;
      if disk.tmp.Some? && MovesBack(disk.repo.value, disk.tmp.value, c) {
        TryBack(c);
        if ComingHome(live, before, carried, true, i) && MovesHomeWork(carried, broken) && lived {
          GoodTurn(live, before, disk, carried, broken, alive, i);
        }
      } else if ComingHome(live, disk, carried, true, i) {
        NotMovedIsHome(live, disk.repo.value, disk.tmp.value, carried, i);
      }
      if Unwindable(first, carried, live) && alive && PutBackSoFar(live, first, before, carried, broken, i) {
        NextTurn(live, first, before, carried, broken, i);
      }
    }

    // -----------------------------------------------------------------------
    // The swap
    // -----------------------------------------------------------------------

    /** Exchanges the working tree with the staged one: at once where the system
        can, otherwise by three renames through the scratch name. */
    method Exchange() returns (ok: bool)
      requires disk.tmp.Some?
      modifies this
      ensures Spent(5) && disk.journal == old(disk.journal)
      ensures !windows || ok ==> disk.scratch == old(disk.scratch) || disk.scratch == None
      ensures (disk.repo == old(disk.repo) && disk.tmp == old(disk.tmp)) || disk.repo == old(disk.tmp) ||
              (disk.repo == None && disk.tmp == old(disk.tmp))
      ensures ok ==> alive && disk.repo == old(disk.tmp) && disk.tmp == old(disk.repo)
      ensures old(disk.repo) == None || SwapFails(windows, broken) ==> !ok
      ensures old(alive) && old(fuel) >= 5 && OnlySwapBroken(broken) ==>
        if old(disk.repo) == None || SwapFails(windows, broken)
        then disk == AfterFailedSwap(old(disk), windows, broken)
        else ok
    {
      if !windows {
        var go := Step();
        ok := go && ExchangeDirs !in broken && disk.repo.Some?;
        if ok {
          disk := disk.(repo := disk.tmp, tmp := disk.repo);
        }
        return;
      }
      RemoveScratch();
      var go := Step();
      if !go || MoveAside in broken || disk.scratch.Some? || disk.repo == None {
        return false;
      }
      disk := disk.(scratch := disk.repo, repo := None);
      go := Step();
      if !go || MoveIn in broken {
        // Nothing has been published yet: put the old tree back, if possible.
        go := Step();
        if go && MoveAsideBack !in broken {
          disk := disk.(repo := disk.scratch, scratch := None);
        }
        return false;
      }
      disk := disk.(repo := disk.tmp, tmp := None);
      go := Step();
      ok := go && MoveAsideOver !in broken;
      if ok {
        disk := disk.(tmp := disk.scratch, scratch := None);
      }
    }

    /** The replaced tree leaves for the trash. */
    method Park() returns (ok: bool)
      modifies this
      ensures Spent(1) && ok == (alive && ParkOld !in broken)
      ensures disk == if ok then old(disk).(tmp := None) else old(disk)
    {
      var go := Step();
      ok := go && ParkOld !in broken;
      if ok {
        disk := disk.(tmp := None);
      }
    }

    // -----------------------------------------------------------------------
    // The rewind and its recovery
    // -----------------------------------------------------------------------

    /** Journals and carries; a carry that fails is unwound and the rewind given
        up, with the working tree as it was if the list is safe and the renames
        back work. */
    method CarryOver(carried: seq<Path>, ghost live: Tree, ghost target: Tree) returns (ok: bool)
      requires AllLive(live, carried) && alive
      requires StartsFrom(disk, live) && disk.tmp == Some(target) && disk.journal == Some(Journal(Materializing, []))
      requires disk.repo == None ==> carried == []
      modifies this
      ensures Spent(5 * |carried| + 3) && disk.scratch == old(disk.scratch)
      ensures (old(disk.repo).Some? && SafeOrder(carried) && MovesHomeWork(carried, broken)) ==>
        HeadsToOld(disk, live)
      ensures disk.journal.Some? && disk.journal.value.phase != Materializing ==>
        disk.journal.value == Journal(Carrying, carried)
      ensures carried == [] ==> ok && disk == old(disk)
      ensures disk.journal == None && DropStage !in broken ==> disk.tmp == None
      ensures ok ==> alive && disk.tmp.Some? && disk.journal.Some? && (disk.repo == None <==> old(disk.repo) == None)
      ensures ok && disk.repo.Some? ==> (disk.repo.value, disk.tmp.value, true) == CarryAll(live, target, carried)
      ensures ok && SafeOrder(carried) ==> IsRestored(disk.tmp.value, target, live, carried)
      ensures old(fuel) >= 3 * |carried| + 1 && OnlySwapBroken(broken) ==> ok == CarryAll(live, target, carried).2
    {
      OldIsHalfway(live, target, carried);
      assert carried[..0] == [];
      if carried == [] {
        CarriedIsRestored(live, live, target, target, carried);
        return true;
      }
      ok := PutJournal(Journal(Carrying, carried));
      if !ok {
        return;
      }
      ok := Carry(carried, live, target);
      if ok {
        if SafeOrder(carried) {
          CarriedIsRestored(live, disk.repo.value, disk.tmp.value, target, carried);
        }
        return;
      }
      MoveBack(carried, live);
      AnyStage(live, carried);
      RemoveTmp(DropStage);
      var cleared := RemoveJournal();
    }

    /** The staged tree is emptied, made anew and filled from the target. */
    method Stage(target: Tree) returns (ok: bool, ghost cleared: Disk)
      modifies this
      ensures Spent(6)
      ensures disk.repo == old(disk.repo) && disk.scratch == old(disk.scratch)
      ensures ok ==> alive && disk.tmp == Some(target) && disk.journal == Some(Journal(Materializing, []))
      ensures old(disk.journal) == None && disk.journal == None && DropStage !in broken ==>
        disk.tmp == None || (disk == old(disk).(tmp := disk.tmp) && UnjournaledStage(old(disk.tmp), disk.tmp.value))
      ensures disk.journal == old(disk.journal) || disk.journal == None || disk.journal == Some(Journal(Materializing,
          []))
      ensures old(alive) && old(fuel) > 0 && ClearStage !in broken ==> cleared == old(disk).(tmp := None)
      ensures old(alive) && old(fuel) >= 4 && OnlySwapBroken(broken) ==> ok && fuel >= old(fuel) - 4
    {
      RemoveTmp(ClearStage);
      cleared := disk;
      ok := CreateTmp();
      if !ok {
        return;
      }
      ok := PutJournal(Journal(Materializing, []));
      if !ok {
        return;
      }
      ok := Materialize(target);
      if !ok {
        RemoveTmp(DropStage);
        var gone := RemoveJournal();
      }
    }

    /** Rewinds the working tree to `target`, carrying the excluded paths that
        exist over from it.  However far it gets, recovery leads to the tree as
        it was or to the restored one.  Nothing checks that the repository is
        there: where a swap left it away, the rewind stages and journals over
        the only copy and fails at the exchange. */
    method Execute(target: Tree, rules: seq<Path>, ghost live: Tree)
      returns (ok: bool, ghost next: Tree, ghost cleared: Disk)
      requires StartsFrom(disk, live) && WellFormed(live) && [] !in rules
      modifies this
      ensures Spent(RewindSteps(|LiveRules(rules, live)|))
      // Started over nothing, with a safe list, and the renames back working:
      ensures (old(StartsClean(disk)) && SafeOrder(LiveRules(rules, live)) &&
               MovesHomeWork(LiveRules(rules, live), broken)) ==>
        HeadsToOld(disk, live) || (HeadsToNew(disk, next) && IsRestored(next, target, live, LiveRules(rules, live)))
      ensures old(disk.scratch) == None && (disk.journal != old(disk.journal) || disk.scratch.Some?) ==>
        ScratchIsJournaled(disk, windows)
      ensures disk.journal != old(disk.journal) && disk.journal.Some? && disk.journal.value.phase != Materializing ==>
        disk.journal.value.carried == LiveRules(rules, live)
      ensures old(disk.journal) == None && disk.journal == None && DropStage !in broken ==>
        disk.tmp == None || (disk == old(disk).(tmp := disk.tmp) && UnjournaledStage(old(disk.tmp), disk.tmp.value))
      // Run to the end, from any start and with any list:
      ensures ok ==> alive && disk.journal == None && disk.tmp == None && disk.repo == Some(next)
      ensures ok ==> (next, true) == (CarryAll(live, target, LiveRules(rules, live)).1,
          CarryAll(live, target, LiveRules(rules, live)).2)
      ensures ok && SafeOrder(LiveRules(rules, live)) ==> IsRestored(next, target, live, LiveRules(rules, live))
      ensures ok && SafeOrder(LiveRules(rules, live)) ==>
        IsRewound(next, target, rules, live) && HoldsExcluded(next, rules, live)
      ensures ok ==>
        ((forall c :: c in LiveRules(rules, live) ==> Home(live, next, c)) <==> SafeOrder(LiveRules(rules, live)))
      ensures (old(alive) && old(fuel) >= RewindSteps(|LiveRules(rules, live)|) && broken == {} &&
               old(disk.repo).Some?) ==>
        ok == CarryAll(live, target, LiveRules(rules, live)).2
      // The first step, and the state a failed exchange leaves:
      ensures old(alive) && old(fuel) > 0 && ClearStage !in broken ==> cleared == old(disk).(tmp := None)
      ensures old(disk.repo) == None ==> !ok
      ensures (old(alive) && old(fuel) >= RewindSteps(|LiveRules(rules, live)|) && OnlySwapBroken(broken) &&
               (SwapFails(windows, broken) || old(disk.repo) == None) &&
               CarryAll(live, target, LiveRules(rules, live)).2) ==>
        !ok && disk == SwapFailed(old(disk), live, target, LiveRules(rules, live), windows, broken)
    {
      next := live;
      var carried := LiveRules(rules, if disk.repo.Some? then disk.repo.value else map[]);
      if disk.repo == None {
        NothingToCarry(rules);
      }
      RestoredRewinds(target, rules, live);
      ok, cleared := Stage(target);
      if !ok {
        return;
      }
      ok := CarryOver(carried, live, target);
      if !ok {
        return;
      }
      next := disk.tmp.value;
      CarryMovesAllExactlyWhenSafe(live, target, carried);
      if SafeOrder(carried) {
        NextHoldsCarried(next, target, live, carried);
      }
      ok := Swap(carried);
    }

    /** Journals the swap, makes it, and tidies up. */
    method Swap(carried: seq<Path>) returns (ok: bool)
      requires alive && disk.tmp.Some? && disk.journal.Some?
      modifies this
      ensures Spent(8)
      ensures disk.journal == old(disk.journal) || disk.journal == Some(Journal(Swapping,
          carried)) || disk.journal == None
      ensures disk.journal == old(disk.journal) ==>
        disk == old(disk) || old(disk.journal) == Some(Journal(Swapping, carried))
      ensures disk.journal == None ==> ok
      ensures ok ==> alive && disk.journal == None && disk.tmp == None && disk.repo == old(disk.tmp)
      ensures (disk.repo == old(disk.repo) && disk.tmp == old(disk.tmp)) || disk.repo == old(disk.tmp) ||
              (disk.repo == None && disk.tmp == old(disk.tmp))
      ensures disk.scratch.Some? ==>
        disk.scratch == old(disk.scratch) || (windows && disk.journal == Some(Journal(Swapping, carried)))
      ensures old(disk.repo) == None ==> !ok
      ensures old(fuel) >= 8 && broken == {} && old(disk.repo).Some? ==> ok
      ensures (old(fuel) >= 8 && OnlySwapBroken(broken) &&
               (old(disk.repo) == None || SwapFails(windows, broken))) ==>
        !ok && disk == AfterFailedSwap(old(disk).(journal := Some(Journal(Swapping, carried))), windows, broken)
    {
      ok := PutJournal(Journal(Swapping, carried));
      if !ok {
        return;
      }
      ok := Exchange();
      if !ok {
        return;
      }
      ok := Park();
      if !ok {
        return;
      }
      ok := RemoveJournal();
    }

    /** Puts back what was carried and drops the staged tree. */
    method Unwind(ghost live: Tree, ghost next: Tree)
      requires disk.journal.Some? && disk.journal.value.phase != Materializing
      modifies this
      ensures Spent(2 * |old(disk.journal.value.carried)| + 1)
      ensures disk == old(disk).(repo := disk.repo, tmp := disk.tmp)
      ensures old(HeadsToOld(disk, live)) && MovesHomeWork(old(disk.journal.value.carried), broken) ==>
        HeadsToOld(disk, live) && (alive ==> disk.repo == Some(live))
      ensures old(HeadsToNew(disk, next)) && old(disk.repo).Some? ==>
        HeadsToNew(disk, next) && disk.repo == old(disk.repo)
      ensures alive && DropStage !in broken ==> disk.tmp == None
      ensures old(HeadsToOld(disk, live)) && alive && DropStage !in broken ==>
        StuckAreLost(disk, live, old(disk.journal.value.carried), broken, old(disk))
    {
      ghost var before := disk;
      var carried := disk.journal.value.carried;
      if disk.repo.Some? {
        MoveBack(carried, live);
      }
      ghost var back := disk;
      AnyStage(live, carried);
      RemoveTmp(DropStage);
      if HeadsToOld(before, live) && before.tmp == None {
        AtHomeAnyway(live, carried, TroubleOf(broken), |carried|);
      }
    }

    /** Finishes or unwinds an interrupted rewind.  It may itself be killed; the
        course it is on does not change. */
    method Recover(ghost live: Tree, ghost next: Tree) returns (ok: bool)
      modifies this
      ensures Spent(RecoverySteps(old(disk)))
      ensures old(HeadsToOld(disk, live)) && MovesHomeWork(JournaledPaths(old(disk)), broken) ==> HeadsToOld(disk, live)
      ensures old(HeadsToNew(disk, next)) ==> HeadsToNew(disk, next)
      ensures ok ==> alive && disk.journal == None
      ensures (ok && old(disk.journal).Some? && CleanupWorks(broken) &&
               (old(HeadsToOld(disk, live)) || old(HeadsToNew(disk, next)))) ==>
        disk.tmp == None
      ensures old(ScratchIsJournaled(disk, windows)) && CleanupWorks(broken) ==> ScratchIsJournaled(disk, windows)
      ensures disk.journal == old(disk.journal) || (disk.journal == None && ok)
      ensures old(disk.journal) == None ==> disk == old(disk)
      ensures old(alive) && old(fuel) >= RecoverySteps(old(disk)) ==>
        (FinishSwap !in broken && ClearJournal !in broken ==> ok)
      // What a broken rename back costs:
      ensures ok && old(HeadsToOld(disk, live)) && DropStage !in broken && old(disk.journal).Some? ==>
        StuckAreLost(disk, live, JournaledPaths(old(disk)), broken, old(disk))
    {
      ok := alive;
      if disk.journal == None {
        return;
      }
      var journal := disk.journal.value;
      match journal.phase {
        case Materializing =>
          RemoveTmp(DropStage);
        case Carrying =>
          Unwind(live, next);
        case Swapping =>
          if disk.repo == None && disk.tmp.Some? {
            var go := Step();
            if !go || FinishSwap in broken {
              return false;
            }
            disk := disk.(repo := disk.tmp, tmp := None);
          } else {
            Unwind(live, next);
          }
          if windows {
            RemoveScratch();
          }
      }
      ok := RemoveJournal();
    }
  }

  /** Nothing a carry needs is broken. */
  ghost predicate CarryWorks(broken: set<Op>) {
    forall op :: op in broken ==> !op.MakeRoom? && !op.ClearRoom? && !op.MoveOver?
  }

  /** The rename can replace what is there: nothing, one leaf by another, or an
      empty directory by a directory. */
  predicate GivesWay(t: Tree, n: Node, c: Path) {
    (forall p :: p in t && StartsWith(p, c) ==> p == c) && (c in t ==> (t[c] == Dir <==> n == Dir))
  }

  /** A safe carry on its way. */
  ghost predicate OnSafeCourse(live: Tree, target: Tree, d: Disk, carried: seq<Path>, i: nat)
    requires i <= |carried|
  {
    AllLive(live, carried) && SafeOrder(carried) && d.repo.Some? && d.tmp.Some? &&
    OnCourse(live, target, d.repo.value, d.tmp.value, carried, i)
  }

  lemma StaysReady(made: Tree, cleared: Tree, c: Path)
    requires ParentReady(made, c)
    requires forall p :: !StartsWith(p, c) ==> Get(cleared, p) == Get(made, p)
    ensures ParentReady(cleared, c)
  {}

  lemma CarriedToTheEnd(live: Tree, target: Tree, carried: seq<Path>, i: nat)
    requires i <= |carried|
    ensures !CarryAll(live, target, carried[..i]).2 ==>
      CarryAll(live, target, carried) == CarryAll(live, target, carried[..i])
  {
    assert carried[..|carried|] == carried;
    if !CarryAll(live, target, carried[..i]).2 {
      CarryStopsAt(live, target, carried, i, |carried|);
    }
  }

  /** Everything `move_back` relies on. */
  ghost predicate Unwindable(d: Disk, carried: seq<Path>, live: Tree) {
    AllLive(live, carried) && SafeOrder(carried) && d.repo.Some? && d.tmp.Some? &&
    Halfway(live, d.repo.value, d.tmp.value, carried)
  }

  function TroubleOf(broken: set<Op>): (trouble: Trouble)
    ensures forall c :: c in trouble.stuck <==> MoveHome(c) in broken
    ensures forall c :: c in trouble.closed <==> MakeWay(c) in broken
  {
    Trouble(set op | op in broken && op.MoveHome? :: op.path, set op | op in broken && op.MakeWay? :: op.path)
  }

  ghost predicate PutBackSoFar(live: Tree, first: Disk, d: Disk, carried: seq<Path>, broken: set<Op>, i: nat)
    requires i <= |carried|
  {
    first.repo.Some? && d.repo.Some? && d.tmp.Some? &&
    PutBack(live, first.repo.value, d.repo.value, d.tmp.value, carried, TroubleOf(broken), i)
  }

  /** Every carried path is whole on one side, and while the process lives the
      first `i` are home. */
  ghost predicate ComingHome(live: Tree, d: Disk, carried: seq<Path>, alive: bool, i: nat)
    requires i <= |carried|
  {
    Unwindable(d, carried, live) && (alive ==> BackUpTo(live, d.repo.value, d.tmp.value, carried, i))
  }

  /** What making the directories and trying the rename leave. */
  ghost predicate BackOutcome(c: Path, broken: set<Op>, alive: bool, before: Disk, after: Disk)
    requires before.repo.Some? && before.tmp.Some?
  {
    var repo, tmp := before.repo.value, before.tmp.value;
    (after == before || after == before.(repo := Some(MakeParents(repo, c))) ||
     after == before.(repo := Some(MovedBack(repo, tmp, c)), tmp := Some(MovedOut(tmp, c))) ||
     after == before.(repo := Some(MovedBack(MakeParents(repo, c), tmp, c)), tmp := Some(MovedOut(tmp, c)))) &&
    (alive && !ParentBlocked(repo, c) ==>
     var made := if MakeWay(c) in broken then repo else MakeParents(repo, c);
     after == if MoveHome(c) in broken || !ParentReady(made, c) then before.(repo := Some(made))
              else before.(repo := Some(MovedBack(made, tmp, c)), tmp := Some(MovedOut(tmp, c))))
  }

  /** A turn with the renames back working, the process killed in it or not. */
  lemma GoodTurn(live: Tree, before: Disk, after: Disk, carried: seq<Path>, broken: set<Op>, alive: bool, i: nat)
    requires i < |carried| && ComingHome(live, before, carried, true, i) && MovesHomeWork(carried, broken)
    requires MovesBack(before.repo.value, before.tmp.value, carried[i])
    requires BackOutcome(carried[i], broken, alive, before, after)
    ensures ComingHome(live, after, carried, alive, i + 1)
  {
    var c, repo := carried[i], before.repo.value;
    assert c in carried;
    BackStep(live, repo, before.tmp.value, carried, i);
    BackHasParents(live, repo, before.tmp.value, carried, i);
    forall a | a in ParentSet(c) ensures Get(repo, a) == Some(Dir) {}
  }

  /** What the next turn of the moves back does, and what it finds. */
  lemma NextTurn(live: Tree, first: Disk, d: Disk, carried: seq<Path>, broken: set<Op>, i: nat)
    requires Unwindable(first, carried, live) && i < |carried| && PutBackSoFar(live, first, d, carried, broken, i)
    ensures var c := carried[i];
            var made := if MakeWay(c) in broken then d.repo.value else MakeParents(d.repo.value, c);
            if c in d.repo.value then PutBackSoFar(live, first, d, carried, broken, i + 1)
            else
              c in d.tmp.value && !ParentBlocked(d.repo.value, c) &&
              if MoveHome(c) in broken || !ParentReady(made, c) then
                PutBackSoFar(live, first, d.(repo := Some(made)), carried, broken, i + 1)
              else PutBackSoFar(live, first, d.(repo := Some(MovedBack(made, d.tmp.value, c)),
                                                tmp := Some(MovedOut(d.tmp.value, c))), carried, broken, i + 1)
  {
    var was, staged, trouble := first.repo.value, first.tmp.value, TroubleOf(broken);
    assert carried[i] in carried;
    TurnTaken(live, was, staged, d.repo.value, d.tmp.value, carried, trouble, i);
    if carried[i] !in d.repo.value {
      TurnToMoveBack(live, was, staged, d.repo.value, d.tmp.value, carried, trouble, i);
    }
  }

  /** The scratch name is in use only while a swap is in flight. */
  ghost predicate ScratchIsJournaled(d: Disk, windows: bool) {
    d.scratch.Some? ==> windows && d.journal.Some? && d.journal.value.phase == Swapping
  }

  ghost predicate StartsClean(d: Disk) {
    d.repo.Some? && d.journal == None && d.scratch == None
  }

  /** The working tree a rewind finds, none counting as an empty one. */
  predicate StartsFrom(d: Disk, live: Tree) {
    d.repo == Some(live) || (d.repo == None && live == map[])
  }

  /** What a rewind killed before its first journal leaves staged: nothing yet, or
      some of what was staged before. */
  ghost predicate UnjournaledStage(before: Option<Tree>, t: Tree) {
    t == map[] || (before.Some? && Part(t, before.value))
  }

  /** The paths a recovery may move back. */
  function JournaledPaths(d: Disk): seq<Path> {
    if d.journal.Some? && d.journal.value.phase != Materializing then d.journal.value.carried else []
  }

  function RecoverySteps(d: Disk): nat {
    if d.journal == None then 0 else 2 * |d.journal.value.carried| + 3
  }

  function RewindSteps(n: nat): nat {
    5 * n + 17
  }

  /** The disk when everything went well up to the exchange, and that failed. */
  ghost function SwapFailed(d: Disk, live: Tree, target: Tree, carried: seq<Path>, windows: bool,
      broken: set<Op>): Disk
  {
    var now := CarryAll(live, target, carried);
    AfterFailedSwap(Disk(if d.repo.Some? then Some(now.0) else None, Some(now.1), d.scratch,
                         Some(Journal(Swapping, carried))), windows, broken)
  }

  /** Of the live tree there is left exactly what the turns of the moves back
      leave there. */
  ghost predicate StuckAreLost(d: Disk, live: Tree, carried: seq<Path>, broken: set<Op>, before: Disk)
    requires before.repo.Some?
  {
    d.repo.Some? && d.tmp == None &&
    BackAsFar(live, before.repo.value, d.repo.value, carried, TroubleOf(broken), |carried|)
  }

  lemma {:induction false} AtHomeAnyway(live: Tree, carried: seq<Path>, trouble: Trouble, i: nat)
    requires AllLive(live, carried) && i <= |carried|
    ensures forall p :: There(carried, trouble, live, i, p) <==> p in live
  {
    if i > 0 {
      AtHomeAnyway(live, carried, trouble, i - 1);
      assert carried[i - 1] in carried;
    }
  }

  /** Which copies that leaves, and which for an unnested list. */
  lemma StuckCopies(d: Disk, live: Tree, carried: seq<Path>, broken: set<Op>, before: Disk, c: Path)
    requires HeadsToOld(before, live) && JournaledPaths(before) == carried && c in carried
    requires StuckAreLost(d, live, carried, broken, before)
    ensures LiveCopyExists(d, live, c) <==>
            forall p :: p in live && StartsWith(p, c) ==>
              There(carried, TroubleOf(broken), before.repo.value, |carried|, p)
    ensures NoNesting(carried) ==>
      (LiveCopyExists(d, live, c) <==> c in before.repo.value || MoveHome(c) !in broken)
  {
    var first, trouble := before.repo.value, TroubleOf(broken);
    if forall p :: p in live && StartsWith(p, c) ==> There(carried, trouble, first, |carried|, p) {
      assert Home(live, d.repo.value, c);
    } else {
      var p :| p in live && StartsWith(p, c) && !There(carried, trouble, first, |carried|, p);
      assert Get(d.repo.value, p) != Get(live, p);
    }
    if NoNesting(carried) {
      forall p | p in live && StartsWith(p, c)
        ensures There(carried, trouble, first, |carried|, p) <==> c in first || MoveHome(c) !in broken
      {
        UnnestedComesBack(before, live, carried, trouble, c, p);
      }
    }
  }

  /** A stage to begin the moves back with, if there is none. */
  function StageOf(d: Disk): Tree {
    if d.tmp.Some? then d.tmp.value else map[]
  }

  lemma OldBegins(before: Disk, live: Tree, carried: seq<Path>)
    requires HeadsToOld(before, live) && JournaledPaths(before) == carried && carried != []
    ensures Begins(live, before.repo.value, StageOf(before), carried)
  {
    OldIsHalfway(live, StageOf(before), carried);
  }

  lemma UnnestedComesBack(before: Disk, live: Tree, carried: seq<Path>, trouble: Trouble, c: Path, p: Path)
    requires HeadsToOld(before, live) && JournaledPaths(before) == carried && NoNesting(carried)
    requires c in carried && p in live && StartsWith(p, c)
    ensures There(carried, trouble, before.repo.value, |carried|, p) <==> c in before.repo.value || c !in trouble.stuck
  {
    var first := before.repo.value;
    OldBegins(before, live, carried);
    HalfwayIsLive(live, first, StageOf(before), carried, p);
    forall d, e | d in carried && e in carried ensures !ProperAncestor(d, e) {
      if StartsWith(e, d) { Unnested(carried, e, d); }
    }
    ThereExactly(live, first, StageOf(before), carried, trouble, |carried|, p);
    assert carried[..|carried|] == carried;
    UnnestedEndsHome(carried, trouble.stuck, first, c, p);
  }

  lemma UnnestedEndsHome(carried: seq<Path>, stuck: set<Path>, first: Tree, c: Path, p: Path)
    requires NoNesting(carried) && c in carried && StartsWith(p, c)
    ensures EndsHome(carried, stuck, first, p) <==> p in first || c !in stuck
  {
    forall d | d in carried ensures !ProperAncestor(p, d) {
      if StartsWith(d, c) { Unnested(carried, d, c); }
    }
    var k :| 0 <= k < |carried| && carried[k] == c;
    assert NoneInside(carried, k) by {
      forall j | 0 <= j < k ensures !ProperAncestor(c, carried[j]) {
        assert !StartsWith(carried[j], carried[k]);
      }
    }
    forall i | 0 <= i < |carried| && StartsWith(p, carried[i]) ensures carried[i] == c {
      AncestorsAreComparable(c, carried[i], p);
      var d := carried[i];
      if StartsWith(c, d) { Unnested(carried, c, d); } else { Unnested(carried, d, c); }
    }
  }

  // -------------------------------------------------------------------------
  // Whole runs
  // -------------------------------------------------------------------------

  /** No process of the run has a rename back broken. */
  ghost predicate AllMovesHomeWork(carried: seq<Path>, lives: seq<Life>, last: set<Op>) {
    MovesHomeWork(carried, last) && forall i :: 0 <= i < |lives| ==> MovesHomeWork(carried, lives[i].broken)
  }

  ghost predicate AllCleanupsWork(lives: seq<Life>, last: set<Op>) {
    CleanupWorks(last) && forall i :: 0 <= i < |lives| ==> CleanupWorks(lives[i].broken)
  }

  /** Any number of recoveries that may be killed anywhere and in which anything
      may fail, and one that has the time it needs.  They do what that one alone
      would: the disk they start from decides which tree is left, and whatever was
      journaled leaves no stage. */
  method RecoverThroughCrashes(host: Host, lives: seq<Life>, last: set<Op>, ghost live: Tree, ghost next: Tree)
    returns (ok: bool)
    modifies host
    ensures host.alive && (FinishSwap !in last && ClearJournal !in last ==> ok)
    ensures ok ==> host.disk.journal == None
    ensures old(host.disk.journal) == None ==> host.disk == old(host.disk)
    ensures (ok && old(HeadsToOld(host.disk, live)) &&
             AllMovesHomeWork(JournaledPaths(old(host.disk)), lives, last)) ==>
      host.disk.repo == Some(live)
    ensures ok && old(HeadsToNew(host.disk, next)) ==> host.disk.repo == Some(next)
    ensures (ok && AllCleanupsWork(lives, last) && old(host.disk.journal).Some? &&
             (old(HeadsToNew(host.disk, next)) ||
              (old(HeadsToOld(host.disk, live)) && AllMovesHomeWork(JournaledPaths(old(host.disk)), lives, last)))) ==>
      host.disk.tmp == None
    ensures ok && AllCleanupsWork(lives, last) && old(ScratchIsJournaled(host.disk, host.windows)) ==>
      host.disk.scratch == None
  {
    ghost var start := host.disk;
    ghost var back := HeadsToOld(start, live) && AllMovesHomeWork(JournaledPaths(start), lives, last);
    ghost var on := HeadsToNew(start, next);
    ghost var tidy := AllCleanupsWork(lives, last);
    for i := 0 to |lives|
      invariant (back ==> HeadsToOld(host.disk, live)) && (on ==> HeadsToNew(host.disk, next))
      invariant tidy && ScratchIsJournaled(start, host.windows) ==> ScratchIsJournaled(host.disk, host.windows)
      invariant host.disk.journal == start.journal || host.disk.journal == None
      invariant start.journal == None ==> host.disk == start
      invariant (back || on) && tidy && start.journal.Some? && host.disk.journal == None ==> host.disk.tmp == None
    {
      host.Restart(lives[i]);
      var finished := host.Recover(live, next);
    }
    host.Restart(Life(RecoverySteps(host.disk), last));
    ok := host.Recover(live, next);
  }

  /** Any number of daemon lifetimes: a rewind that may be killed anywhere and in
      which anything may fail, then recoveries that may too, then one that has
      the time it needs.  That one ends with the working tree as it was or with
      the restored one.  A stage is left only by a rewind that was killed before
      it journaled anything. */
  method RewindThroughCrashes(host: Host, target: Tree, rules: seq<Path>, lives: seq<Life>, last: set<Op>,
      ghost live: Tree) returns (ok: bool)
    requires host.disk == Disk(Some(live), host.disk.tmp, None, None)
    requires WellFormed(live) && [] !in rules
    modifies host
    ensures host.alive && (FinishSwap !in last && ClearJournal !in last ==> ok)
    ensures ok ==> host.disk.journal == None
    ensures (ok && SafeOrder(LiveRules(rules, live)) && MovesHomeWork(LiveRules(rules, live), old(host.broken)) &&
             AllMovesHomeWork(LiveRules(rules, live), lives, last)) ==>
      host.disk.repo.Some? &&
      (host.disk.repo.value == live || IsRewound(host.disk.repo.value, target, rules, live)) &&
      HoldsExcluded(host.disk.repo.value, rules, live)
    ensures (ok && old(host.alive) && old(host.fuel) >= RewindSteps(|LiveRules(rules, live)|) &&
             old(host.broken) == {} && CarryAll(live, target, LiveRules(rules, live)).2) ==>
      host.disk == Disk(Some(CarryAll(live, target, LiveRules(rules, live)).1), None, host.disk.scratch, None)
    ensures ok && AllCleanupsWork(lives, last) ==> host.disk.scratch == None
    ensures (ok && SafeOrder(LiveRules(rules, live)) && MovesHomeWork(LiveRules(rules, live), old(host.broken)) &&
             AllMovesHomeWork(LiveRules(rules, live), lives, last) &&
             DropStage !in old(host.broken) && AllCleanupsWork(lives, last)) ==>
      host.disk.tmp == None ||
      (host.disk.repo == Some(live) && UnjournaledStage(old(host.disk.tmp), host.disk.tmp.value))
  {
    var done;
    ghost var next, cleared;
    RestoredRewinds(target, rules, live);
    done, next, cleared := host.Execute(target, rules, live);
    ok := RecoverThroughCrashes(host, lives, last, live, next);
  }

  lemma LeftInRepo(live: Tree, target: Tree, carried: seq<Path>, p: Path)
    requires AllLive(live, carried) && CarryAll(live, target, carried).2
    ensures Get(CarryAll(live, target, carried).0, p) == if Covered(carried, p) then None else Get(live, p)
  {
    assert carried[..|carried|] == carried;
    LeftBehind(live, target, carried, |carried|, p);
  }

  lemma RepoStaysWellFormed(live: Tree, target: Tree, carried: seq<Path>)
    requires AllLive(live, carried) && CarryAll(live, target, carried).2
    ensures WellFormed(CarryAll(live, target, carried).0)
  {
    var repo := CarryAll(live, target, carried).0;
    LeftInRepo(live, target, carried, []);
    forall p, a | p in repo && ProperAncestor(a, p) ensures a in repo && repo[a] == Dir {
      LeftInRepo(live, target, carried, p);
      LeftInRepo(live, target, carried, a);
      assert Get(live, a) == Some(Dir);
      if Covered(carried, a) {
        var d :| d in carried && StartsWith(a, d);
        assert StartsWith(p, d);
      }
    }
  }

  lemma NothingLeftToCarry(rules: seq<Path>, live: Tree, target: Tree)
    requires WellFormed(live) && [] !in rules && CarryAll(live, target, LiveRules(rules, live)).2
    ensures var repo := CarryAll(live, target, LiveRules(rules, live)).0;
            WellFormed(repo) && LiveRules(rules, repo) == [] &&
            forall c :: c in LiveRules(rules, live) ==> c in live && c !in repo
  {
    var carried := LiveRules(rules, live);
    var repo := CarryAll(live, target, carried).0;
    RepoStaysWellFormed(live, target, carried);
    forall c | c in rules ensures c !in repo {
      LeftInRepo(live, target, carried, c);
      if c in live {
        assert c in carried && StartsWith(c, c);
      }
    }
    RetainNone(rules, c => c in repo);
  }

  lemma SwapFailedHeads(d: Disk, live: Tree, target: Tree, carried: seq<Path>, windows: bool, broken: set<Op>)
    requires AllLive(live, carried) && SafeOrder(carried) && CarryAll(live, target, carried).2
    requires d.repo == Some(live)
    ensures var after, next := SwapFailed(d, live, target, carried, windows, broken),
              CarryAll(live, target, carried).1;
            if SwapVacates(windows, broken) then HeadsToNew(after, next) && IsRestored(next, target, live, carried)
            else HeadsToOld(after, live)
  {
    assert carried[..|carried|] == carried;
    SafeCarryKeeps(live, target, carried, |carried|);
    if SwapVacates(windows, broken) {
      CarryIsRestored(live, target, carried);
      NextHoldsCarried(CarryAll(live, target, carried).1, target, live, carried);
    }
  }

  lemma CarryIsRestored(live: Tree, target: Tree, carried: seq<Path>)
    requires AllLive(live, carried) && SafeOrder(carried) && CarryAll(live, target, carried).2
    ensures IsRestored(CarryAll(live, target, carried).1, target, live, carried)
  {
    var now := CarryAll(live, target, carried);
    assert carried[..|carried|] == carried;
    SafeCarryKeeps(live, target, carried, |carried|);
    forall p | !Covered(carried, p)
      ensures Get(now.1, p) == if OnTheWay(carried, p) then Some(Dir) else Get(target, p)
    {
      StagedPrefix(live, target, carried, |carried|, p);
    }
    CarriedIsRestored(live, now.0, now.1, target, carried);
  }

  /** A rewind in which everything works but the exchange. */
  method RewindUpToSwap(host: Host, target: Tree, rules: seq<Path>, ghost live: Tree) returns (ghost reached: Disk)
    requires host.disk == Disk(Some(live), host.disk.tmp, None, None) && host.alive
    requires WellFormed(live) && [] !in rules && SafeOrder(LiveRules(rules, live))
    requires OnlySwapBroken(host.broken) && SwapFails(host.windows, host.broken)
    requires CarryAll(live, target, LiveRules(rules, live)).2 && host.fuel >= RewindSteps(|LiveRules(rules, live)|)
    modifies host
    ensures reached == host.disk
    ensures reached == SwapFailed(old(host.disk), live, target, LiveRules(rules, live), host.windows, old(host.broken))
    ensures if SwapVacates(host.windows, old(host.broken))
            then HeadsToNew(reached, reached.tmp.value) &&
                 IsRewound(reached.tmp.value, target, rules, live)
            else HeadsToOld(reached, live)
    ensures forall c :: c in rules && c in live ==>
              LiveCopyExists(reached, live, c) && (reached.repo.Some? ==> c !in reached.repo.value)
  {
    ghost var carried := LiveRules(rules, live);
    NothingLeftToCarry(rules, live, target);
    RestoredRewinds(target, rules, live);
    SwapFailedHeads(host.disk, live, target, carried, host.windows, host.broken);
    var ok;
    ghost var next, cleared;
    ok, next, cleared := host.Execute(target, rules, live);
    reached := host.disk;
    forall c | c in carried ensures LiveCopyExists(reached, live, c) {
      NoLiveCopyIsLost(reached, live, target, reached.tmp.value, carried, c);
    }
  }

  /** The same daemon rewinds again, and nothing fails, whatever its last attempt
      left.  Only the same one clears that stage, whose name carries its process
      id; another daemon recovers first. */
  method RewindUndisturbed(host: Host, target: Tree, rules: seq<Path>, ghost live: Tree)
    returns (ok: bool, ghost cleared: Disk)
    requires host.disk.repo == Some(live) && WellFormed(live) && [] !in rules && SafeOrder(LiveRules(rules, live))
    requires CarryAll(live, target, LiveRules(rules, live)).2
    modifies host
    ensures ok && host.disk.journal == None && host.disk.tmp == None && host.disk.repo.Some?
    ensures IsRewound(host.disk.repo.value, target, rules, live) && HoldsExcluded(host.disk.repo.value, rules, live)
    ensures host.disk.repo.value == CarryAll(live, target, LiveRules(rules, live)).1
    ensures cleared == old(host.disk).(tmp := None)
  {
    host.Restart(Life(RewindSteps(|LiveRules(rules, host.disk.repo.value)|), {}));
    ghost var next;
    ok, next, cleared := host.Execute(target, rules, live);
  }

  /** The exchange fails and the working tree is where it was: the carried files
      are in the staged tree, and the next rewind starts by clearing it.  That
      removes every one of them, and after it each is still there exactly when
      the new target happens to hold it; with a recovery first, each is. */
  method RewindAfterFailedExchange(host: Host, target: Tree, again: Tree, rules: seq<Path>, recoverFirst: bool,
      ghost live: Tree)
    returns (ok: bool, ghost reached: Disk, ghost cleared: Disk)
    requires host.disk == Disk(Some(live), host.disk.tmp, None, None) && host.alive
    requires WellFormed(live) && [] !in rules && SafeOrder(LiveRules(rules, live))
    requires OnlySwapBroken(host.broken) && SwapFails(host.windows, host.broken)
    requires !SwapVacates(host.windows, host.broken) && host.fuel >= RewindSteps(|LiveRules(rules, live)|)
    requires CarryAll(live, target, LiveRules(rules, live)).2 && CarryAll(live, again, LiveRules(rules, live)).2
    modifies host
    ensures ok && host.disk.journal == None && host.disk.tmp == None && host.disk.repo.Some?
    ensures reached == SwapFailed(old(host.disk), live, target, LiveRules(rules, live), host.windows, old(host.broken))
    ensures forall c :: c in rules && c in live ==> LiveCopyExists(reached, live, c)
    ensures !recoverFirst ==> cleared == reached.(tmp := None)
    ensures forall c :: c in rules && c in live ==> (LiveCopyExists(cleared, live, c) <==> recoverFirst)
    ensures if recoverFirst then IsRewound(host.disk.repo.value, again, rules, live)
            else host.disk.repo.value == again
    ensures forall c :: c in rules && c in live ==>
              (LiveCopyExists(host.disk, live, c) <==> recoverFirst || Home(live, again, c))
  {
    ghost var carried := LiveRules(rules, live);
    NothingLeftToCarry(rules, live, target);
    reached := RewindUpToSwap(host, target, rules, live);
    if recoverFirst {
      host.Restart(Life(RecoverySteps(host.disk), {}));
      var recovered := host.Recover(live, live);
    }
    ghost var now := host.disk.repo.value;
    ok, cleared := RewindUndisturbed(host, again, rules, now);
    forall c | c in carried
      ensures LiveCopyExists(cleared, live, c) <==> recoverFirst
      ensures LiveCopyExists(host.disk, live, c) <==> recoverFirst || Home(live, again, c)
    {
      if recoverFirst {
        RewoundIsHome(host.disk.repo.value, again, rules, live, c);
        assert Home(live, now, c);
      } else {
        AbsentIsNotHome(live, now, c, c);
      }
    }
  }

  /** A swap by three renames moves the working tree aside and can neither put
      the staged one in place nor the old one back.  A recovery now finishes it.
      Another rewind instead, which fails, throws away the staged tree with the
      carried files in it and then the old tree; a recovery after that can only
      put its own target in place. */
  method RewindOverVacatedSwap(host: Host, target: Tree, again: Tree, rules: seq<Path>, recoverFirst: bool,
      ghost live: Tree)
    returns (ok: bool, ghost reached: Disk)
    requires host.disk == Disk(Some(live), host.disk.tmp, None, None) && host.alive
    requires WellFormed(live) && [] !in rules && SafeOrder(LiveRules(rules, live))
    requires OnlySwapBroken(host.broken) && SwapVacates(host.windows, host.broken)
    requires CarryAll(live, target, LiveRules(rules, live)).2 && host.fuel >= RewindSteps(|LiveRules(rules, live)|)
    modifies host
    ensures ok && host.disk == Disk(host.disk.repo, None, None, None) && host.disk.repo.Some?
    ensures reached == SwapFailed(old(host.disk), live, target, LiveRules(rules, live), host.windows, old(host.broken))
    ensures reached.repo == None && forall c :: c in rules && c in live ==> CopyInStage(reached, live, c)
    ensures if recoverFirst then IsRewound(host.disk.repo.value, target, rules, live)
            else host.disk.repo.value == again
    ensures forall c :: c in rules && c in live ==>
              (LiveCopyExists(host.disk, live, c) <==> recoverFirst || Home(live, again, c))
  {
    ghost var carried := LiveRules(rules, live);
    reached := RewindUpToSwap(host, target, rules, live);
    ghost var next, cleared := reached.tmp.value, reached;
    forall c | c in carried ensures Home(live, next, c) {
      RewoundIsHome(next, target, rules, live, c);
    }
    if !recoverFirst {
      host.Restart(Life(RewindSteps(0), {}));
      var lost;
      NothingToCarry(rules);
      lost, next, cleared := host.Execute(again, rules, map[]);
      next := again;
    }
    host.Restart(Life(RecoverySteps(host.disk), {}));
    ok := host.Recover(live, next);
  }

  lemma RewoundIsHome(t: Tree, target: Tree, rules: seq<Path>, live: Tree, c: Path)
    requires IsRewound(t, target, rules, live) && c in rules && c in live
    ensures Home(live, t, c)
  {
    forall p | StartsWith(p, c) ensures Get(t, p) == Get(live, p) {
      assert UnderLiveRule(rules, live, p);
    }
  }

  lemma RestoredHoldsLive(t: Tree, target: Tree, live: Tree, carried: seq<Path>, c: Path)
    requires IsRestored(t, target, live, carried) && c in carried
    ensures Home(live, t, c)
  {
    forall p | StartsWith(p, c) ensures Get(t, p) == Get(live, p) {
      assert Covered(carried, p);
    }
  }

  /** Renames back fail during the recovery from such an exchange: the recovery
      goes on, drops the staged tree, and with it exactly what could not be
      brought home.  Of an unnested list those are the files whose rename failed. */
  method RecoverWithStuckRenames(host: Host, target: Tree, rules: seq<Path>, stuck: set<Op>, ghost live: Tree)
    returns (ok: bool)
    requires host.disk == Disk(Some(live), host.disk.tmp, None, None) && host.alive
    requires WellFormed(live) && [] !in rules && SafeOrder(LiveRules(rules, live))
    requires OnlySwapBroken(host.broken) && SwapFails(host.windows, host.broken)
    requires !SwapVacates(host.windows, host.broken) && host.fuel >= RewindSteps(|LiveRules(rules, live)|)
    requires CarryAll(live, target, LiveRules(rules, live)).2
    requires forall op :: op in stuck ==> op.MoveHome?
    modifies host
    ensures ok && host.disk == Disk(host.disk.repo, None, None, None) && host.disk.repo.Some?
    ensures forall p :: Get(host.disk.repo.value, p) ==
              if BackAnyway(LiveRules(rules, live), TroubleOf(stuck).stuck, p) then Get(live, p) else None
    ensures NoNesting(LiveRules(rules, live)) ==>
      forall c :: c in rules && c in live ==> (LiveCopyExists(host.disk, live, c) <==> MoveHome(c) !in stuck)
  {
    ghost var carried := LiveRules(rules, live);
    ghost var before := RewindUpToSwap(host, target, rules, live);
    host.Restart(Life(RecoverySteps(host.disk), stuck));
    ok := host.Recover(live, live);
    assert carried[..|carried|] == carried;
    forall p ensures Get(host.disk.repo.value, p) ==
                     if BackAnyway(carried, TroubleOf(stuck).stuck, p) then Get(live, p) else None
    {
      LeftInRepo(live, target, carried, p);
      if p in live && carried != [] {
        OldBegins(before, live, carried);
        ThereExactly(live, before.repo.value, StageOf(before), carried, TroubleOf(stuck), |carried|, p);
      }
    }
    forall c | c in carried && NoNesting(carried)
      ensures LiveCopyExists(host.disk, live, c) <==> MoveHome(c) !in stuck
    {
      StuckCopies(host.disk, live, carried, stuck, before, c);
    }
  }

  /** Not carried, made on the way to a carried path, or renamed back. */
  ghost predicate BackAnyway(carried: seq<Path>, stuck: set<Path>, p: Path) {
    !Covered(carried, p) || OnTheWay(carried, p) || ComesHome(carried, stuck, p)
  }

  lemma LoneFile(live: Tree, none: Tree, c: Path)
    requires |c| == 1 && none == map[] && (forall p :: p in live <==> p == c) && live[c] != Dir
    ensures WellFormed(live) && SafeOrder([c]) && CarryAll(live, none, [c]).2
    ensures SwapFailed(Disk(Some(live), None, None, None), live, none, [c], false, {ExchangeDirs}) ==
              Disk(Some(none), Some(live), None, Some(Journal(Swapping, [c])))
  {
    var carried := [c];
    assert carried[..1] == carried;
    forall p, a | p in live ensures !ProperAncestor(a, p) {
      assert ProperAncestor(a, p) ==> 0 < |a| < 1;
    }
    forall i | 0 <= i < |carried| ensures !StandsInTheWay(none, carried, i) {}
    CarryStops(live, none, carried);
    var now := CarryAll(live, none, carried);
    forall p ensures Get(now.0, p) == Get(none, p) && Get(now.1, p) == Get(live, p) {
      LeftBehind(live, none, carried, 1, p);
      assert Covered(carried, p) <==> StartsWith(p, c);
      if Covered(carried, p) {
        CarryMovesAllExactlyWhenSafe(live, none, carried);
        assert c in carried && Home(live, now.1, c);
      } else {
        StagedPrefix(live, none, carried, 1, p);
        assert !OnTheWay(carried, p);
      }
    }
    TreesAgree(now.0, none);
    TreesAgree(now.1, live);
  }

  /** One excluded file in an otherwise empty repository, and an empty target:
      the disk a failed exchange leaves, on which the next rewind loses the file. */
  lemma OneFileIsEnough()
    ensures var live: Tree := map[["s"] := Regular("key")];
            WellFormed(live) && LiveRules([["s"]], live) == [["s"]] && SafeOrder([["s"]]) &&
            CarryAll(live, map[], [["s"]]).2 && !Home(live, map[], ["s"]) &&
            SwapFailed(Disk(Some(live), None, None, None), live, map[], [["s"]], false, {ExchangeDirs}) ==
              Disk(Some(map[]), Some(live), None, Some(Journal(Swapping, [["s"]])))
  {
    var live: Tree := map[["s"] := Regular("key")];
    LoneFile(live, map[], ["s"]);
    assert ["s"] in live;
    AbsentIsNotHome(live, map[], ["s"], ["s"]);
  }

  /** What clearing a leftover staged tree costs in general: every live copy is
      kept exactly when each carried path is in the working tree, which recovery
      sees to. */
  lemma ClearingTheStageLosesNothingExactlyWhen(d: Disk, carried: seq<Path>, live: Tree)
    requires Unwindable(d, carried, live)
    ensures (forall c :: c in carried ==> LiveCopyExists(d.(tmp := None), live, c)) <==>
            (forall c :: c in carried ==> c in d.repo.value)
  {
    forall c | c in carried ensures LiveCopyExists(d.(tmp := None), live, c) <==> c in d.repo.value {
      assert HomeOrAway(live, d.repo.value, d.tmp.value, c);
      if c in d.repo.value {
        PresentIsNotAway(live, d.repo.value, d.tmp.value, c, c);
      } else {
        AbsentIsNotHome(live, d.repo.value, c, c);
      }
    }
  }
}
