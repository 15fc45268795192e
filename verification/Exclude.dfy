/** Paths that never enter a checkpoint: the rules, the filter on watcher hints
    and the scrub that removes what a capture pulled in all the same. */
module Exclude {
  import opened Paths
  import opened Trees
  import opened TextMerge
  import opened Checkouts
  import opened Writing

  /** One component of a rule as written in the configuration. */
  datatype Component = Normal(name: Name) | CurDir | Escape

  datatype RuleError = NotInsideRepo | WholeRepo

  type Rules = seq<Path>

  /** `path` is an excluded path or lies under one. */
  predicate IsExcluded(rules: Rules, p: Path) {
    exists i :: 0 <= i < |rules| && StartsWith(p, rules[i])
  }

  /** `path` is a strict ancestor of an excluded path, the root included. */
  predicate IsAncestor(rules: Rules, p: Path) {
    exists i :: 0 <= i < |rules| && |p| < |rules[i]| && StartsWith(rules[i], p)
  }

  lemma ExcludedExactly(rules: Rules, p: Path)
    ensures IsExcluded(rules, p) <==> exists r :: r in rules && r <= p
    ensures IsAncestor(rules, p) <==> exists r :: r in rules && p <= r && p != r
  {
    if i :| 0 <= i < |rules| && StartsWith(p, rules[i]) {
      assert rules[i] in rules;
    }
    if i :| 0 <= i < |rules| && |p| < |rules[i]| && StartsWith(rules[i], p) {
      assert rules[i] in rules && p != rules[i];
    }
    if r :| r in rules && r <= p {
      var i :| 0 <= i < |rules| && rules[i] == r;
      assert StartsWith(p, rules[i]);
    }
    if r :| r in rules && p <= r && p != r {
      var i :| 0 <= i < |rules| && rules[i] == r;
      assert r == p + r[|p|..];
      assert |p| < |rules[i]| && StartsWith(rules[i], p);
    }
  }

  // -------------------------------------------------------------------------
  // Parsing
  // -------------------------------------------------------------------------

  function Names(pattern: seq<Component>): Path {
    if pattern == [] then []
    else
      var k := |pattern| - 1;
      Names(pattern[..k]) + (if pattern[k].Normal? then [pattern[k].name] else [])
  }

  /** The names of a rule stand in the order of its pattern, and `.` does not
      count, wherever it stands. */
  lemma {:induction false} NamesJoin(a: seq<Component>, b: seq<Component>)
    ensures Names(a + b) == Names(a) + Names(b)
    decreases |b|
  {
    if b == [] {
      assert a + b == a;
    } else {
      var k := |b| - 1;
      NamesJoin(a, b[..k]);
      assert (a + b)[..|a + b| - 1] == a + b[..k];
    }
  }

  ghost function Pattern(names: Path): seq<Component> {
    seq(|names|, i requires 0 <= i < |names| => Normal(names[i]))
  }

  /** A pattern of plain names is those names. */
  lemma {:induction false} PlainNames(names: Path)
    ensures Names(Pattern(names)) == names
  {
    if names != [] {
      var k := |names| - 1;
      PlainNames(names[..k]);
      assert Pattern(names)[..k] == Pattern(names[..k]);
    }
  }

  lemma DotsDoNotCount(a: seq<Component>, b: seq<Component>)
    ensures Names(a + [CurDir] + b) == Names(a + b)
  {
    NamesJoin(a + [CurDir], b);
    NamesJoin(a, b);
    assert (a + [CurDir])[..|a|] == a;
  }

  /** Only `.` leaves no name, which is the whole repository. */
  lemma {:induction false} NoNames(pattern: seq<Component>)
    ensures Names(pattern) == [] <==> forall c :: c in pattern ==> !c.Normal?
  {
    if pattern != [] {
      var k := |pattern| - 1;
      NoNames(pattern[..k]);
      assert pattern == pattern[..k] + [pattern[k]];
    }
  }

  predicate Acceptable(pattern: seq<Component>) {
    Escape !in pattern && Names(pattern) != []
  }

  /** Reads one rule; `.` components do not count. */
  method ParseOne(pattern: seq<Component>) returns (r: Result<Path, RuleError>)
    ensures r == if Escape in pattern then Err(NotInsideRepo)
                 else if Names(pattern) == [] then Err(WholeRepo)
                 else Ok(Names(pattern))
  {
    var components: Path := [];
    for i := 0 to |pattern|
      invariant components == Names(pattern[..i])
      invariant Escape !in pattern[..i]
    {
      assert pattern[..i + 1][..i] == pattern[..i];
      if pattern[i] == Escape {
        return Err(NotInsideRepo);
      }
      if pattern[i].Normal? {
        components := components + [pattern[i].name];
      }
    }
    assert pattern[..|pattern|] == pattern;
    r := if components == [] then Err(WholeRepo) else Ok(components);
  }

  /** The pattern at `i` is the first that is refused, for `why`. */
  ghost predicate FirstBad(patterns: seq<seq<Component>>, i: nat, why: RuleError)
    requires i < |patterns|
  {
    !Acceptable(patterns[i]) && (forall k :: 0 <= k < i ==> Acceptable(patterns[k])) &&
    (why == NotInsideRepo <==> Escape in patterns[i])
  }

  /** Some pattern means `p`, and none up to it means `q`. */
  ghost predicate NamedFirst(patterns: seq<seq<Component>>, p: Path, q: Path) {
    exists k :: 0 <= k < |patterns| && Names(patterns[k]) == p &&
      forall l :: 0 <= l <= k ==> Names(patterns[l]) != q
  }

  /** Reads the rule list; exact repetitions are dropped, nested rules
      are not, and what is left stands in the order of the list. */
  method Parse(patterns: seq<seq<Component>>) returns (r: Result<Rules, RuleError>)
    ensures r.Ok? <==> forall i :: 0 <= i < |patterns| ==> Acceptable(patterns[i])
    ensures r.Err? ==> exists i :: 0 <= i < |patterns| && FirstBad(patterns, i, r.error)
    ensures r.Ok? ==> [] !in r.value && forall i, j :: 0 <= i < j < |r.value| ==> r.value[i] != r.value[j]
    ensures r.Ok? ==> forall p :: p in r.value <==> exists i :: 0 <= i < |patterns| && Names(patterns[i]) == p
    ensures r.Ok? ==> forall i, j :: 0 <= i < j < |r.value| ==> NamedFirst(patterns, r.value[i], r.value[j])
  {
    var rules: Rules := [];
    for i := 0 to |patterns|
      invariant forall k :: 0 <= k < i ==> Acceptable(patterns[k])
      invariant [] !in rules && forall k, l :: 0 <= k < l < |rules| ==> rules[k] != rules[l]
      invariant forall p :: p in rules <==> exists k :: 0 <= k < i && Names(patterns[k]) == p
      invariant forall k, l :: 0 <= k < l < |rules| ==> NamedFirst(patterns, rules[k], rules[l])
    {
      var one := ParseOne(patterns[i]);
      if one.Err? {
        assert FirstBad(patterns, i, one.error);
        return Err(one.error);
      }
      if one.value !in rules {
        forall k | 0 <= k < |rules| ensures NamedFirst(patterns, rules[k], one.value) {
          assert rules[k] in rules;
          var l :| 0 <= l < i && Names(patterns[l]) == rules[k];
          assert forall m :: 0 <= m <= l ==> Names(patterns[m]) != one.value;
        }
        rules := rules + [one.value];
      }
    }
    r := Ok(rules);
  }

  // -------------------------------------------------------------------------
  // Watcher hints
  // -------------------------------------------------------------------------

  datatype WatchChange =
    | Created(path: Path)
    | Modified(path: Path)
    | MetadataChanged(path: Path)
    | RemovedHere(path: Path)
    | Renamed(src: Path, dst: Path)

  function HintsOf(change: WatchChange): set<Path> {
    if change.Renamed? then {change.src, change.dst} else {change.path}
  }

  function Hints(changes: seq<WatchChange>): set<Path> {
    if changes == [] then {}
    else Hints(changes[..|changes| - 1]) + HintsOf(changes[|changes| - 1])
  }

  /** Reading the hinted subtrees of the working tree into the checkout. */
  function Captured(checkout: Tree, disk: Tree, changes: seq<WatchChange>): Tree {
    Overlay(checkout, disk, Hints(changes))
  }

  /** The tree without its excluded paths. */
  function Scrubbed(t: Tree, rules: Rules): Tree {
    map p | p in t && !IsExcluded(rules, p) :: t[p]
  }

  predicate IsClean(t: Tree, rules: Rules) {
    forall p :: p in t ==> !IsExcluded(rules, p)
  }

  /** What one hint becomes, if anything, and whether it may re-read an excluded
      subtree. */
  function FilterOne(rules: Rules, change: WatchChange): (seq<WatchChange>, bool) {
    match change
    case Renamed(src, dst) =>
      if IsExcluded(rules, src) && IsExcluded(rules, dst) then ([], false)
      else if IsExcluded(rules, src) then ([Modified(dst)], IsAncestor(rules, dst))
      else if IsExcluded(rules, dst) then ([Modified(src)], IsAncestor(rules, src))
      else ([change], IsAncestor(rules, src) || IsAncestor(rules, dst))
    case _ =>
      if IsExcluded(rules, change.path) then ([], false) else ([Modified(change.path)], IsAncestor(rules, change.path))
  }

  ghost predicate RightlyFiltered(rules: Rules, changes: seq<WatchChange>, kept: seq<WatchChange>, scrub: bool) {
    (forall h :: h in Hints(kept) <==> h in Hints(changes) && !IsExcluded(rules, h)) &&
    (scrub <==> exists h :: h in Hints(kept) && IsAncestor(rules, h))
  }

  lemma {:induction false} HintsAppend(a: seq<WatchChange>, b: seq<WatchChange>)
    ensures Hints(a + b) == Hints(a) + Hints(b)
  {
    if b == [] {
      assert a + b == a;
    } else {
      var k := |b| - 1;
      assert (a + b)[..|a + b| - 1] == a + b[..k];
      HintsAppend(a, b[..k]);
    }
  }

  /** Drops the hints under a rule, turns a rename across the boundary into a
      re-examination of its uncovered side, and asks for a scrub when a kept
      hint lies above a rule. */
  method FilterBatch(rules: Rules, changes: seq<WatchChange>) returns (kept: seq<WatchChange>, scrub: bool)
    ensures RightlyFiltered(rules, changes, kept, scrub)
    ensures rules == [] ==> kept == changes
  {
    if rules == [] {
      return changes, false;
    }
    kept, scrub := [], false;
    for i := 0 to |changes|
      invariant RightlyFiltered(rules, changes[..i], kept, scrub)
    {
      assert changes[..i + 1][..i] == changes[..i];
      var one := FilterOne(rules, changes[i]);
      FilterStep(rules, changes[..i], kept, scrub, changes[i]);
      assert changes[..i + 1] == changes[..i] + [changes[i]];
      kept, scrub := kept + one.0, scrub || one.1;
    }
    assert changes[..|changes|] == changes;
  }

  lemma OneHint(change: WatchChange)
    ensures Hints([change]) == HintsOf(change)
  {
    assert [change][..0] == [];
  }

  lemma FilterStep(rules: Rules, done: seq<WatchChange>, kept: seq<WatchChange>, scrub: bool, change: WatchChange)
    requires RightlyFiltered(rules, done, kept, scrub)
    ensures var one := FilterOne(rules, change);
            RightlyFiltered(rules, done + [change], kept + one.0, scrub || one.1)
  {
    var one := FilterOne(rules, change);
    HintsAppend(done, [change]);
    HintsAppend(kept, one.0);
    OneHint(change);
    if one.0 != [] {
      OneHint(one.0[0]);
      assert one.0 == [one.0[0]];
    }
  }

  /** Filtering before the capture and scrubbing after it when asked to gives
      what capturing everything and stripping the excluded paths would give. */
  lemma FilteredCaptureIsStripped(rules: Rules, checkout: Tree, disk: Tree, changes: seq<WatchChange>,
                                  kept: seq<WatchChange>, scrub: bool)
    requires IsClean(checkout, rules) && RightlyFiltered(rules, changes, kept, scrub)
    ensures var captured := Captured(checkout, disk, kept);
            (if scrub then Scrubbed(captured, rules) else captured) == Scrubbed(Captured(checkout, disk, changes),
                rules)
  {
    var captured, all := Captured(checkout, disk, kept), Captured(checkout, disk, changes);
    var result := if scrub then Scrubbed(captured, rules) else captured;
    forall p ensures Get(result, p) == Get(Scrubbed(all, rules), p) {
      OverlayAt(checkout, disk, Hints(kept), p);
      OverlayAt(checkout, disk, Hints(changes), p);
      if IsExcluded(rules, p) {
        if Below(p, Hints(kept)) {
          KeptAboveCovered(rules, changes, kept, scrub, p);
        }
      } else {
        KeptWhereUncovered(rules, changes, kept, scrub, p);
      }
    }
    TreesAgree(result, Scrubbed(all, rules));
  }

  lemma KeptAboveCovered(rules: Rules, changes: seq<WatchChange>, kept: seq<WatchChange>, scrub: bool, p: Path)
    requires RightlyFiltered(rules, changes, kept, scrub) && IsExcluded(rules, p) && Below(p, Hints(kept))
    ensures scrub
  {
    var h :| h in Hints(kept) && StartsWith(p, h);
    var i :| 0 <= i < |rules| && StartsWith(p, rules[i]);
    AncestorsAreComparable(h, rules[i], p);
    assert !StartsWith(h, rules[i]);
    assert IsAncestor(rules, h);
  }

  lemma KeptWhereUncovered(rules: Rules, changes: seq<WatchChange>, kept: seq<WatchChange>, scrub: bool, p: Path)
    requires RightlyFiltered(rules, changes, kept, scrub) && !IsExcluded(rules, p)
    ensures Below(p, Hints(kept)) <==> Below(p, Hints(changes))
  {
    if Below(p, Hints(changes)) {
      var h :| h in Hints(changes) && StartsWith(p, h);
      forall i | 0 <= i < |rules| ensures !StartsWith(h, rules[i]) {
        assert !StartsWith(p, rules[i]);
      }
      assert h in Hints(kept);
    }
  }

  // -------------------------------------------------------------------------
  // Root hints
  // -------------------------------------------------------------------------

  datatype RootHint = NoHint | MetadataOnly | Structural

  function RootHintOf(change: WatchChange): RootHint {
    if change.Renamed? then (if change.src == [] || change.dst == [] then Structural else NoHint)
    else if change.path != [] then NoHint
    else if change.MetadataChanged? then MetadataOnly
    else Structural
  }

  /** The hints of a batch that are not about the root, in order. */
  function Stripped(changes: seq<WatchChange>): seq<WatchChange> {
    if changes == [] then []
    else
      var k := |changes| - 1;
      Stripped(changes[..k]) + (if RootHintOf(changes[k]) == NoHint then [changes[k]] else [])
  }

  ghost predicate Hinted(changes: seq<WatchChange>, h: RootHint) {
    exists i :: 0 <= i < |changes| && RootHintOf(changes[i]) == h
  }

  /** The gravest thing the batch says about the root. */
  ghost predicate IsGravest(changes: seq<WatchChange>, hint: RootHint) {
    (hint == Structural <==> Hinted(changes, Structural)) &&
    (hint == MetadataOnly <==> Hinted(changes, MetadataOnly) && !Hinted(changes, Structural))
  }

  lemma GravestSoFar(changes: seq<WatchChange>, hint: RootHint, change: WatchChange)
    requires IsGravest(changes, hint)
    ensures var one := RootHintOf(change);
            IsGravest(changes + [change], if one != NoHint && (one == Structural || hint == NoHint) then one else hint)
  {
    var more := changes + [change];
    forall h ensures Hinted(more, h) <==> Hinted(changes, h) || RootHintOf(change) == h {
      if Hinted(changes, h) {
        var i :| 0 <= i < |changes| && RootHintOf(changes[i]) == h;
        assert more[i] == changes[i];
      }
      assert more[|changes|] == change;
    }
  }

  /** Removes hints at the root from a batch and reports the gravest. */
  method StripRootHints(changes: seq<WatchChange>) returns (rest: seq<WatchChange>, hint: RootHint)
    ensures rest == Stripped(changes)
    ensures IsGravest(changes, hint)
  {
    rest, hint := [], NoHint;
    for i := 0 to |changes|
      invariant rest == Stripped(changes[..i])
      invariant IsGravest(changes[..i], hint)
    {
      assert changes[..i + 1] == changes[..i] + [changes[i]];
      assert changes[..i + 1][..i] == changes[..i];
      GravestSoFar(changes[..i], hint, changes[i]);
      var one := RootHintOf(changes[i]);
      if one == NoHint {
        rest := rest + [changes[i]];
      } else if one == Structural || hint == NoHint {
        hint := one;
      }
    }
    assert changes[..|changes|] == changes;
  }

  lemma RootHintAlone(change: WatchChange)
    requires RootHintOf(change) != Structural
    ensures HintsOf(change) - {[]} == if RootHintOf(change) == NoHint then HintsOf(change) else {}
  {}

  /** Only hints about the root go: what is left re-reads the same paths. */
  lemma {:induction false} StrippedHints(changes: seq<WatchChange>)
    requires !Hinted(changes, Structural)
    ensures Hints(Stripped(changes)) == Hints(changes) - {[]}
  {
    if changes != [] {
      var k := |changes| - 1;
      var rest, last := changes[..k], changes[k];
      forall i | 0 <= i < |rest| ensures RootHintOf(rest[i]) != Structural {
        assert rest[i] == changes[i];
      }
      StrippedHints(rest);
      RootHintAlone(last);
      var kept := if RootHintOf(last) == NoHint then [last] else [];
      HintsAppend(Stripped(rest), kept);
      OneHint(last);
      assert Hints(kept) == HintsOf(last) - {[]};
      assert Hints(changes) == Hints(rest) + HintsOf(last);
    }
  }

  // -------------------------------------------------------------------------
  // Scrubbing a checkout
  // -------------------------------------------------------------------------

  ghost function StrictlyBelow(t: Tree, dir: Path): set<Path> {
    set p | p in t && StartsWith(p, dir) && p != dir
  }

  /** Empties a directory, deepest entries first; the directory itself stays. */
  method RemoveContents(checkout: Checkout, dir: Path) returns (ok: bool)
    requires WellFormed(checkout.nodes) && dir != []
    modifies checkout
    ensures ok && WellFormed(checkout.nodes)
    ensures checkout.nodes == old(checkout.nodes) - StrictlyBelow(old(checkout.nodes), dir)
    decreases StrictlyBelow(checkout.nodes, dir)
  {
    ghost var before := checkout.nodes;
    var names := checkout.ListChildren(dir);
    ok := true;
    ghost var gone: set<Path> := {};
    for i := 0 to |names|
      invariant ok && WellFormed(checkout.nodes)
      invariant checkout.nodes == before - gone && gone <= StrictlyBelow(before, dir)
      invariant forall p :: p in StrictlyBelow(before, dir) ==>
        (p in gone <==> exists k :: 0 <= k < i && StartsWith(p, dir + [names[k]]))
    {
      var child := dir + [names[i]];
      assert names[i] in names && child in before;
      forall k | 0 <= k < i ensures !StartsWith(child, dir + [names[k]]) {
        assert child[|dir|] == names[i];
      }
      assert child in checkout.nodes;
      ghost var below := StrictlyBelow(checkout.nodes, child);
      ghost var reach := StrictlyBelow(before, dir);
      assert below < reach by {
        assert child in reach && child !in below;
      }
      if checkout.nodes[child] == Dir {
        var emptied := RemoveContents(checkout, child);
      } else {
        forall p | p in below ensures false {
          NothingBelowLeaves(checkout.nodes, child, p);
        }
      }
      ghost var emptiedTree := checkout.nodes;
      assert emptiedTree == before - (gone + below);
      ok := checkout.Remove(child);
      LeafRemovalKeepsShape(emptiedTree, child);
      ChildGone(before, dir, names, gone, i);
      gone := gone + below + {child};
    }
    forall p | p in StrictlyBelow(before, dir) ensures p in gone {
      var k := ChildAbove(before, dir, names, p);
    }
  }

  lemma ChildGone(before: Tree, dir: Path, names: seq<Name>, gone: set<Path>, i: nat)
    requires i < |names| && gone <= StrictlyBelow(before, dir) && dir + [names[i]] in before
    requires forall p :: p in StrictlyBelow(before, dir) ==>
      (p in gone <==> exists k :: 0 <= k < i && StartsWith(p, dir + [names[k]]))
    ensures var child := dir + [names[i]];
            var next := gone + StrictlyBelow(before - gone, child) + {child};
            next <= StrictlyBelow(before, dir) &&
            forall p :: p in StrictlyBelow(before, dir) ==>
              (p in next <==> exists k :: 0 <= k < i + 1 && StartsWith(p, dir + [names[k]]))
  {
    var child := dir + [names[i]];
    var next := gone + StrictlyBelow(before - gone, child) + {child};
    forall p | p in next ensures p in StrictlyBelow(before, dir) {
      if p in StrictlyBelow(before - gone, child) || p == child {
        ChildrenStayApart(dir, names[i], p);
      }
    }
    forall p | p in StrictlyBelow(before, dir)
      ensures p in next <==> exists k :: 0 <= k < i + 1 && StartsWith(p, dir + [names[k]])
    {
      if StartsWith(p, child) {
        assert p in next;
      }
    }
  }

  lemma ScrubOne(t: Tree, rules: Rules, i: nat, emptied: Tree)
    requires i < |rules| && rules[i] != []
    requires rules[i] in t
    requires emptied == Scrubbed(t, rules[..i]) - StrictlyBelow(Scrubbed(t, rules[..i]), rules[i]) - {rules[i]}
    ensures emptied == Scrubbed(t, rules[..i + 1])
  {
    forall p ensures IsExcluded(rules[..i + 1], p) <==> IsExcluded(rules[..i], p) || StartsWith(p, rules[i]) {
      ExcludedOneMore(rules, i, p);
    }
  }

  lemma ExcludedOneMore(rules: Rules, i: nat, p: Path)
    requires i < |rules|
    ensures IsExcluded(rules[..i + 1], p) <==> IsExcluded(rules[..i], p) || StartsWith(p, rules[i])
  {
    if IsExcluded(rules[..i], p) {
      var k :| 0 <= k < i && StartsWith(p, rules[..i][k]);
      assert rules[..i + 1][k] == rules[..i][k];
    }
    if StartsWith(p, rules[i]) {
      assert rules[..i + 1][i] == rules[i];
    }
  }

  lemma ScrubbedIsWellFormed(t: Tree, rules: Rules)
    requires WellFormed(t)
    ensures WellFormed(Scrubbed(t, rules))
  {
    forall p, a | p in Scrubbed(t, rules) && ProperAncestor(a, p)
      ensures a in Scrubbed(t, rules) && Scrubbed(t, rules)[a] == Dir
    {
      forall i | 0 <= i < |rules| ensures !StartsWith(a, rules[i]) {
        assert !StartsWith(p, rules[i]);
      }
    }
  }

  /** Removes every excluded path from the checkout, and nothing else. */
  method Scrub(rules: Rules, checkout: Checkout) returns (removed: nat)
    requires WellFormed(checkout.nodes) && [] !in rules
    modifies checkout
    ensures checkout.nodes == Scrubbed(old(checkout.nodes), rules)
    ensures removed == 0 <==> IsClean(old(checkout.nodes), rules)
  {
    ghost var before := checkout.nodes;
    removed := 0;
    assert Scrubbed(before, rules[..0]) == before;
    for i := 0 to |rules|
      invariant checkout.nodes == Scrubbed(before, rules[..i])
      invariant removed == 0 <==> IsClean(before, rules[..i])
    {
      assert rules[i] in rules;
      ScrubbedIsWellFormed(before, rules[..i]);
      forall p ensures IsExcluded(rules[..i + 1], p) <==> IsExcluded(rules[..i], p) || StartsWith(p, rules[i]) {
        ExcludedOneMore(rules, i, p);
      }
      if rules[i] !in checkout.nodes {
        AbsentRule(before, rules, i);
        continue;
      }
      if checkout.nodes[rules[i]] == Dir {
        var emptied := RemoveContents(checkout, rules[i]);
      } else {
        forall p | p in StrictlyBelow(checkout.nodes, rules[i]) ensures false {
          NothingBelowLeaves(checkout.nodes, rules[i], p);
        }
        assert checkout.nodes == checkout.nodes - StrictlyBelow(checkout.nodes, rules[i]);
      }
      var gone := checkout.Remove(rules[i]);
      ScrubOne(before, rules, i, checkout.nodes);
      assert StartsWith(rules[i], rules[i]) && IsExcluded(rules[..i + 1], rules[i]);
      removed := removed + 1;
    }
    assert rules[..|rules|] == rules;
  }

  /** A rule whose path is absent has nothing to remove: nothing hangs below. */
  lemma AbsentRule(before: Tree, rules: Rules, i: nat)
    requires WellFormed(before) && i < |rules| && rules[i] != [] && rules[i] !in Scrubbed(before, rules[..i])
    requires WellFormed(Scrubbed(before, rules[..i]))
    ensures Scrubbed(before, rules[..i + 1]) == Scrubbed(before, rules[..i])
    ensures IsClean(before, rules[..i + 1]) <==> IsClean(before, rules[..i])
  {
    forall p ensures IsExcluded(rules[..i + 1], p) <==> IsExcluded(rules[..i], p) || StartsWith(p, rules[i]) {
      ExcludedOneMore(rules, i, p);
    }
    var now := Scrubbed(before, rules[..i]);
    forall p | p in now ensures !StartsWith(p, rules[i]) {
      if StartsWith(p, rules[i]) && p != rules[i] {
        NothingBelowLeaves(now, rules[i], p);
      }
    }
  }

  // -------------------------------------------------------------------------
  // Restoring around excluded files
  // -------------------------------------------------------------------------

  ghost predicate SomeExcluded(rules: Rules, paths: seq<Path>) {
    exists i :: 0 <= i < |paths| && IsExcluded(rules, paths[i])
  }

  ghost predicate Beneath(paths: seq<Path>, p: Path) {
    exists i :: 0 <= i < |paths| && StartsWith(p, paths[i])
  }

  /** A restored path that names none of the rules keeps an excluded path exactly
      when that path does not lie beneath it. */
  lemma RestoreAroundOne(rules: Rules, t: Tree, src: Tree, q: Path, p: Path)
    requires IsClean(src, rules) && IsExcluded(rules, p) && !IsExcluded(rules, q)
    requires !Failed(RestorePath(t, src, q))
    ensures Get(RestorePath(t, src, q).tree, p) == if StartsWith(p, q) then None else Get(t, p)
  {
    ReplaceAt(MakeParents(t, q), src, q, p);
    ReplaceAt(t, map[], q, p);
    MakeParentsAt(t, q, p);
    ExcludedIsNotAbove(rules, p, q);
  }

  /** What restoring paths from a generation without excluded files leaves of an
      excluded live file: nothing exactly when a restored path lies above it. */
  lemma {:induction false} RestoreAroundExcluded(rules: Rules, live: Tree, src: Tree, paths: seq<Path>, p: Path)
    requires IsClean(src, rules) && IsExcluded(rules, p)
    requires forall i :: 0 <= i < |paths| ==> !IsExcluded(rules, paths[i])
    requires RestoreAll(live, src, paths).0
    ensures Get(RestoreAll(live, src, paths).1, p) == if Beneath(paths, p) then None else Get(live, p)
  {
    if paths != [] {
      var k := |paths| - 1;
      var rest := paths[..k];
      assert !IsExcluded(rules, paths[k]);
      assert forall i :: 0 <= i < k ==> rest[i] == paths[i];
      RestoreAroundExcluded(rules, live, src, rest, p);
      RestoreAroundOne(rules, RestoreAll(live, src, rest).1, src, paths[k], p);
      BeneathOneMore(paths, k, p);
    }
  }

  lemma BeneathOneMore(paths: seq<Path>, k: nat, p: Path)
    requires |paths| == k + 1
    ensures Beneath(paths, p) <==> Beneath(paths[..k], p) || StartsWith(p, paths[k])
  {
    if Beneath(paths[..k], p) {
      var i :| 0 <= i < k && StartsWith(p, paths[..k][i]);
      assert StartsWith(p, paths[i]);
    }
    if Beneath(paths, p) && !StartsWith(p, paths[k]) {
      var i :| 0 <= i < |paths| && StartsWith(p, paths[i]);
      assert StartsWith(p, paths[..k][i]);
    }
  }

  lemma ExcludedIsNotAbove(rules: Rules, p: Path, q: Path)
    requires IsExcluded(rules, p) && !IsExcluded(rules, q)
    ensures !StartsWith(q, p)
  {
    var i :| 0 <= i < |rules| && StartsWith(p, rules[i]);
    assert !StartsWith(q, rules[i]);
  }

  /** Every path that names none of the rules may be restored, also a directory
      with an excluded file in it.  The live excluded files all survive exactly
      when none of them lies beneath a restored path. */
  lemma RestoringKeepsExcludedExactlyWhen(rules: Rules, live: Tree, src: Tree, paths: seq<Path>)
    requires IsClean(src, rules) && !SomeExcluded(rules, paths) && RestoreAll(live, src, paths).0
    ensures (forall p :: p in live && IsExcluded(rules, p) ==>
               Get(RestoreAll(live, src, paths).1, p) == Some(live[p])) <==>
            (forall p :: p in live && IsExcluded(rules, p) ==> !Beneath(paths, p))
  {
    forall p | p in live && IsExcluded(rules, p)
      ensures Get(RestoreAll(live, src, paths).1, p) == Some(live[p]) <==> !Beneath(paths, p)
    {
      RestoreAroundExcluded(rules, live, src, paths, p);
    }
  }
}
