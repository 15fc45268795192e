/** What merging one file gives, in terms of the library's own answer and of the
    texts, and what that means for a file that lands. */
module FileMerges {
  import opened Paths
  import opened Trees
  import opened TextMerge
  import opened Planner
  import opened Landing
  import opened MergeLaws

  // -------------------------------------------------------------------------
  // Positions in a text
  // -------------------------------------------------------------------------

  /** `word` stands at position `i`, at the start of a line. */
  ghost predicate LineStarts(s: Bytes, i: nat, word: Bytes) {
    i <= |s| && (i == 0 || s[i - 1] == '\n') && word <= s[i..]
  }

  /** The line that starts at `i` ends `n` characters later. */
  ghost predicate LineEndsAfter(s: Bytes, i: nat, n: nat) {
    i + n == |s| || (i + n < |s| && s[i + n] == '\n')
  }

  lemma {:induction false} OpensByPosition(s: Bytes, atStart: bool)
    ensures OpensSomewhere(s, atStart) <==>
            exists i :: 0 <= i < |s| && (if i == 0 then atStart else s[i - 1] == '\n') &&
                        ("<<<<<<< " <= s[i..] || "<<<<<<<\t" <= s[i..])
  {
    if s != "" {
      var rest := s[1..];
      OpensByPosition(rest, s[0] == '\n');
      assert s[0..] == s;
      if i :| 0 <= i < |rest| && (if i == 0 then s[0] == '\n' else rest[i - 1] == '\n') &&
              ("<<<<<<< " <= rest[i..] || "<<<<<<<\t" <= rest[i..]) {
        assert s[i + 1..] == rest[i..] && s[i + 1 - 1] == (if i == 0 then s[0] else rest[i - 1]);
      }
      if i :| 0 < i < |s| && s[i - 1] == '\n' && ("<<<<<<< " <= s[i..] || "<<<<<<<\t" <= s[i..]) {
        assert rest[i - 1..] == s[i..];
      }
    }
  }

  lemma {:induction false} SeparatesByPosition(s: Bytes, atStart: bool)
    ensures SeparatesSomewhere(s, atStart) <==>
            exists i :: 0 <= i < |s| && (if i == 0 then atStart else s[i - 1] == '\n') && SeparatorHere(s[i..])
  {
    if s != "" {
      var rest := s[1..];
      SeparatesByPosition(rest, s[0] == '\n');
      assert s[0..] == s;
      if i :| 0 <= i < |rest| && (if i == 0 then s[0] == '\n' else rest[i - 1] == '\n') && SeparatorHere(rest[i..]) {
        assert s[i + 1..] == rest[i..] && s[i + 1 - 1] == (if i == 0 then s[0] else rest[i - 1]);
      }
      if i :| 0 < i < |s| && s[i - 1] == '\n' && SeparatorHere(s[i..]) {
        assert rest[i - 1..] == s[i..];
      }
    }
  }

  /** A line that is seven equals signs, up to two carriage returns. */
  ghost predicate SeparatorAt(s: Bytes, i: nat) {
    LineStarts(s, i, "=======") &&
    (LineEndsAfter(s, i, 7) ||
     (LineStarts(s, i, "=======\r") &&
      (LineEndsAfter(s, i, 8) || (LineStarts(s, i, "=======\r\r") && i + 9 < |s| && s[i + 9] == '\n'))))
  }

  ghost predicate OpeningAt(s: Bytes, i: nat) {
    LineStarts(s, i, "<<<<<<< ") || LineStarts(s, i, "<<<<<<<\t")
  }

  lemma SeparatorHereIsAt(s: Bytes, i: nat)
    requires i < |s| && (i == 0 || s[i - 1] == '\n')
    ensures SeparatorHere(s[i..]) <==> SeparatorAt(s, i)
  {
    var t := s[i..];
    assert forall k :: 0 <= k < |t| ==> t[k] == s[i + k];
    if "=======" <= t {
      assert t[..7] == "=======";
      if |t| > 7 {
        assert t[..8] == t[..7] + [t[7]];
        assert "=======\r" <= t <==> t[7] == '\r';
        if |t| > 8 {
          assert t[..9] == t[..8] + [t[8]];
          assert "=======\r\r" <= t <==> t[7] == '\r' && t[8] == '\r';
        }
      }
    }
  }

  /** A text holds an open conflict exactly when some line opens one and some line
      separates one. */
  lemma MarkersByPosition(s: Bytes)
    ensures HasConflictMarkers(s) <==> (exists i :: OpeningAt(s, i)) && (exists i :: SeparatorAt(s, i))
  {
    MarkersByScan(s);
    OpensAtPosition(s);
    SeparatesAtPosition(s);
  }

  lemma OpensAtPosition(s: Bytes)
    ensures OpensSomewhere(s, true) <==> exists i :: OpeningAt(s, i)
  {
    OpensByPosition(s, true);
    if i: nat :| OpeningAt(s, i) {
      assert i < |s|;
    }
    if i :| 0 <= i < |s| && (if i == 0 then true else s[i - 1] == '\n') &&
            ("<<<<<<< " <= s[i..] || "<<<<<<<\t" <= s[i..]) {
      assert OpeningAt(s, i);
    }
  }

  lemma SeparatesAtPosition(s: Bytes)
    ensures SeparatesSomewhere(s, true) <==> exists i :: SeparatorAt(s, i)
  {
    SeparatesByPosition(s, true);
    if i: nat :| SeparatorAt(s, i) {
      assert i < |s|;
      SeparatorHereIsAt(s, i);
    }
    if i :| 0 <= i < |s| && (if i == 0 then true else s[i - 1] == '\n') && SeparatorHere(s[i..]) {
      SeparatorHereIsAt(s, i);
    }
  }

  /** `p` is a UTF-8 file in which some line opens a block and some line separates
      one. */
  ghost predicate HoldsOpenBlock(utf8: Bytes -> bool, t: Tree, p: Path) {
    Get(t, p).Some? && Get(t, p).value.Regular? &&
    var text := Get(t, p).value.bytes;
    utf8(text) && (exists i :: OpeningAt(text, i)) && (exists i :: SeparatorAt(text, i))
  }

  /** The starts of the lines that open a block. */
  ghost function Openings(s: Bytes): set<nat> {
    set i: nat | i < |s| && LineStarts(s, i, "<<<<<<< ")
  }

  lemma {:induction false} OpeningsCounted(s: Bytes)
    ensures CountOpenings(SplitInclusive(s)) == |Openings(s)|
    decreases |s|
  {
    if s == "" {
      assert Openings(s) == {};
    } else {
      var n := LineEnd(s);
      var rest := s[n..];
      LineEndIsFirst(s);
      OpeningsCounted(rest);
      OpeningsShift(s, n);
      OpensItself(s, n, "<<<<<<< ");
    }
  }

  /** Whether a text opens a block can be seen in its first line. */
  lemma OpensItself(s: Bytes, n: nat, word: Bytes)
    requires s != "" && n == LineEnd(s) && '\n' !in word && word == "<<<<<<< "
    ensures 0 in Openings(s) <==> word <= s[..n]
  {
    LineEndIsFirst(s);
    assert s[0..] == s;
    if word <= s {
      assert forall i :: 0 <= i < |word| ==> s[i] == word[i] && s[i] != '\n';
      assert n >= |word|;
      assert s[..n][..|word|] == s[..|word|];
    }
  }

  lemma OpeningsShift(s: Bytes, n: nat)
    requires s != "" && n == LineEnd(s)
    ensures |Openings(s)| == (if 0 in Openings(s) then 1 else 0) + |Openings(s[n..])|
  {
    var later := Openings(s) - {0};
    forall i: nat ensures i in later <==> i >= n && i - n in Openings(s[n..]) {
      if i > 0 {
        OpeningMoves(s, n, i);
      }
    }
    ShiftedIsAsLarge(Openings(s[n..]), later, n);
  }

  lemma OpeningMoves(s: Bytes, n: nat, i: nat)
    requires s != "" && n == LineEnd(s) && 0 < i
    ensures i in Openings(s) <==> i >= n && i - n in Openings(s[n..])
  {
    LineEndIsFirst(s);
    if n <= i < |s| {
      assert s[i..] == s[n..][i - n..];
      assert i > n ==> s[i - 1] == s[n..][i - n - 1];
    }
  }

  lemma {:induction false} ShiftedIsAsLarge(a: set<nat>, b: set<nat>, n: nat)
    requires forall i: nat :: i in b <==> i >= n && i - n in a
    ensures |a| == |b|
  {
    if a == {} {
      assert b == {};
    } else {
      var x :| x in a;
      assert x + n in b;
      ShiftedIsAsLarge(a - {x}, b - {x + n}, n);
    }
  }

  // -------------------------------------------------------------------------
  // The gate
  // -------------------------------------------------------------------------

  /** Small enough, no NUL near the start, and UTF-8. */
  ghost predicate IsText(env: Env, s: Bytes) {
    |s| <= env.maxFileBytes && (forall i :: 0 <= i < |s| && i < 8192 ==> s[i] != '\0') && env.utf8(s)
  }

  ghost predicate AllText(env: Env, sides: seq<Option<Bytes>>) {
    forall i :: 0 <= i < |sides| && sides[i].Some? ==> IsText(env, sides[i].value)
  }

  lemma TextGateExactly(env: Env, s: Bytes)
    ensures TextGate(env, s) ==
            if IsText(env, s) then Ok(s) else Err(if |s| > env.maxFileBytes then TooLarge else Binary)
  {}

  /** A file merge is refused exactly when some side is no text, with the reason of
      the first such side: the base, the fork, the mainline. */
  lemma RefusedExactlyWhen(env: Env, b: Option<Bytes>, o: Option<Bytes>, t: Option<Bytes>)
    ensures MergeFile(env, b, o, t).Ok? <==> AllText(env, [b, o, t])
    ensures !AllText(env, [b, o, t]) ==>
      exists i :: 0 <= i < 3 && AllText(env, [b, o, t][..i]) &&
        [b, o, t][i].Some? && !IsText(env, [b, o, t][i].value) &&
        MergeFile(env, b, o, t) == Err(if |[b, o, t][i].value| > env.maxFileBytes then TooLarge else Binary)
  {
    var sides := [b, o, t];
    forall i | 0 <= i < 3 && sides[i].Some? ensures TextGate(env, sides[i].value) ==
      if IsText(env, sides[i].value) then Ok(sides[i].value)
      else Err(if |sides[i].value| > env.maxFileBytes then TooLarge else Binary)
    {
      TextGateExactly(env, sides[i].value);
    }
    assert sides[0] == b && sides[1] == o && sides[2] == t;
    if !AllText(env, sides) {
      var i := if b.Some? && !IsText(env, b.value) then 0 else if o.Some? && !IsText(env, o.value) then 1 else 2;
      assert AllText(env, sides[..i]) by {
        forall j | 0 <= j < i && sides[..i][j].Some? ensures IsText(env, sides[..i][j].value) {
          assert sides[..i][j] == sides[j];
        }
      }
      assert sides[i].Some? && !IsText(env, sides[i].value);
    }
  }

  // -------------------------------------------------------------------------
  // The text of a clean merge
  // -------------------------------------------------------------------------

  /** A missing base counts as an empty one. */
  ghost function BaseText(b: Option<Bytes>): Bytes {
    if b.Some? then b.value else ""
  }

  /** Texts made of complete lines that differ: the library decides. */
  lemma CleanMergeIsTheLibrarys(env: Env, b: Option<Bytes>, o: Bytes, t: Bytes, x: Bytes)
    requires AllText(env, [b, Some(o), Some(t)]) && o != t
    requires Terminated(BaseText(b)) && EndsWithNewline(o) && EndsWithNewline(t)
    requires env.library(BaseText(b), o, t) == Clean(x)
    ensures MergeFile(env, b, Some(o), Some(t)) == Ok(Merged(x))
  {
    MergedOrMarked(env, b, o, t);
  }

  /** What the library is asked. */
  ghost function Asked(env: Env, b: Option<Bytes>, o: Bytes, t: Bytes): LibMerge {
    env.library(Completed(BaseText(b)), Completed(o), Completed(t))
  }

  /** With its last line ended. */
  ghost function Completed(s: Bytes): Bytes {
    if s == "" || s[|s| - 1] == '\n' then s else s + ['\n']
  }

  /** Whether the merge ends its last line: where the sides agree, as they do;
      otherwise as the side does that differs from the base. */
  ghost predicate EndsItsLine(b: Bytes, o: Bytes, t: Bytes) {
    if EndsWithNewline(o) == EndsWithNewline(t) then EndsWithNewline(t)
    else EndsWithNewline(if EndsWithNewline(o) == EndsWithNewline(b) then t else o)
  }

  /** In general: a clean answer is the merge, but for the newline at its end; any
      other answer is reported under the names of the sides, with one hunk for
      each line that opens a block. */
  lemma MergedOrMarked(env: Env, b: Option<Bytes>, o: Bytes, t: Bytes)
    requires AllText(env, [b, Some(o), Some(t)]) && o != t
    ensures var r := MergeFile(env, b, Some(o), Some(t));
            match Asked(env, b, o, t)
            case Clean(x) =>
              r == Ok(Merged(if EndsItsLine(BaseText(b), o, t) || x == "" then x else x[..|x| - 1]))
            case Conflicts(y) =>
              r.Ok? && r.value.Conflicted? && r.value.kind == Hunks &&
              r.value.marked == Relabel(y, env.oursName, "mainline") &&
              r.value.hunks == (if |Openings(r.value.marked)| > 0xFFFF_FFFF then 0xFFFF_FFFF
                                else |Openings(r.value.marked)|)
  {
    var sides := [b, Some(o), Some(t)];
    RefusedExactlyWhen(env, b, Some(o), Some(t));
    assert sides[0] == b && sides[1] == Some(o) && sides[2] == Some(t);
    TextGateExactly(env, o);
    TextGateExactly(env, t);
    if b.Some? {
      TextGateExactly(env, b.value);
    }
    assert Completed(o) == EnsureTrailingNewline(o) && Completed(t) == EnsureTrailingNewline(t);
    assert Completed(BaseText(b)) == EnsureTrailingNewline(OrEmpty(b));
    if Asked(env, b, o, t).Conflicts? {
      OpeningsCounted(Relabel(Asked(env, b, o, t).text, env.oursName, "mainline"));
    }
  }

  /** A side that did not change the file yields to the other, and equal sides are
      their own merge: without the library where they are equal, and by its laws
      otherwise. */
  lemma MergeFileKeepsIdentities(env: Env, b: Bytes, x: Bytes)
    requires IdentityLaws(env.library) && IsText(env, b) && IsText(env, x)
    ensures MergeFile(env, Some(b), Some(b), Some(x)) == Ok(Merged(x))
    ensures MergeFile(env, Some(b), Some(x), Some(b)) == Ok(Merged(x))
    ensures MergeFile(env, Some(b), Some(x), Some(x)) == Ok(Merged(x))
    ensures MergeFile(env, None, Some(x), Some(x)) == Ok(Merged(x))
  {
    TextGateExactly(env, b);
    TextGateExactly(env, x);
    Merge3KeepsIdentities(env.library, b, x, env.oursName, MAINLINE);
  }

  /** Equal sides merge to themselves whatever the library does. */
  lemma EqualSidesMerge(env: Env, b: Option<Bytes>, x: Bytes)
    requires AllText(env, [b, Some(x), Some(x)])
    ensures MergeFile(env, b, Some(x), Some(x)) == Ok(Merged(x))
  {
    var sides := [b, Some(x), Some(x)];
    assert sides[0] == b && sides[1] == Some(x);
    TextGateExactly(env, x);
    if b.Some? {
      TextGateExactly(env, b.value);
    }
  }

  /** A conflict block: the two sides with their names, and the base between. */
  ghost function Block(oursName: string, ours: Bytes, base: Bytes, theirs: Bytes, theirsName: string): Bytes {
    "<<<<<<< " + oursName + "\n" + ours + "||||||| original\n" + base + "=======\n" + theirs +
    ">>>>>>> " + theirsName + "\n"
  }

  /** A file that the mainline deleted: one block, with the fork's text on its side
      and nothing on the other. */
  lemma ModifiedHereDeletedThere(env: Env, b: Option<Bytes>, kept: Bytes)
    requires AllText(env, [b, Some(kept)])
    ensures MergeFile(env, b, Some(kept), None) ==
            Ok(Conflicted(Block(env.oursName + " (modified)", Completed(kept), Completed(BaseText(b)), "",
                                MAINLINE + " (deleted)"), 1, TheirsDeleted))
  {
    BothAreText(env, b, kept);
    assert Completed(kept) == EnsureTrailingNewline(kept);
    assert Completed(BaseText(b)) == EnsureTrailingNewline(OrEmpty(b));
  }

  /** A file that the fork deleted: the same with the sides exchanged. */
  lemma DeletedHereModifiedThere(env: Env, b: Option<Bytes>, kept: Bytes)
    requires AllText(env, [b, Some(kept)])
    ensures MergeFile(env, b, None, Some(kept)) ==
            Ok(Conflicted(Block(env.oursName + " (deleted)", "", Completed(BaseText(b)), Completed(kept),
                                MAINLINE + " (modified)"), 1, OursDeleted))
  {
    BothAreText(env, b, kept);
    assert Completed(kept) == EnsureTrailingNewline(kept);
    assert Completed(BaseText(b)) == EnsureTrailingNewline(OrEmpty(b));
  }

  lemma BothAreText(env: Env, b: Option<Bytes>, kept: Bytes)
    requires AllText(env, [b, Some(kept)])
    ensures Gate(env, b) == Ok(b) && Gate(env, Some(kept)) == Ok(Some(kept))
  {
    var sides := [b, Some(kept)];
    assert sides[0] == b && sides[1] == Some(kept);
    TextGateExactly(env, kept);
    if b.Some? {
      TextGateExactly(env, b.value);
    }
  }

  // -------------------------------------------------------------------------
  // Labels
  // -------------------------------------------------------------------------

  ghost predicate OccursAt(s: Bytes, pattern: Bytes, i: nat) {
    i <= |s| && pattern <= s[i..]
  }

  ghost predicate Occurs(s: Bytes, pattern: Bytes) {
    exists i: nat :: OccursAt(s, pattern, i)
  }

  /** A text without the pattern is left as it is. */
  lemma {:induction false} NothingReplaced(s: Bytes, pattern: Bytes, replacement: Bytes)
    requires pattern != "" && !Occurs(s, pattern)
    ensures ReplaceAll(s, pattern, replacement) == s
    decreases |s|
  {
    if s != "" {
      assert s[0..] == s;
      assert !OccursAt(s, pattern, 0);
      forall i: nat ensures !OccursAt(s[1..], pattern, i) {
        assert !OccursAt(s, pattern, i + 1);
        assert i < |s| ==> s[1..][i..] == s[i + 1..];
      }
      NothingReplaced(s[1..], pattern, replacement);
    }
  }

  /** The first place where the pattern stands gets the replacement, and the search
      goes on behind it. */
  lemma {:induction false} FirstReplaced(a: Bytes, pattern: Bytes, rest: Bytes, replacement: Bytes)
    requires pattern != "" && forall i: nat :: i < |a| ==> !OccursAt(a + pattern + rest, pattern, i)
    ensures ReplaceAll(a + pattern + rest, pattern, replacement) ==
            a + replacement + ReplaceAll(rest, pattern, replacement)
    decreases |a|
  {
    var s := a + pattern + rest;
    assert s[0..] == s;
    if a == "" {
      assert s == pattern + rest && s[|pattern|..] == rest;
      assert a + replacement == replacement;
    } else {
      assert !OccursAt(s, pattern, 0);
      var tail := a[1..] + pattern + rest;
      assert s[1..] == tail;
      forall i: nat | i < |a[1..]| ensures !OccursAt(tail, pattern, i) {
        assert tail[i..] == s[i + 1..];
        assert !OccursAt(s, pattern, i + 1);
      }
      FirstReplaced(a[1..], pattern, rest, replacement);
      assert [s[0]] + (a[1..] + replacement + ReplaceAll(rest, pattern, replacement)) ==
             a + replacement + ReplaceAll(rest, pattern, replacement);
    }
  }

  const OPENING := "<<<<<<< ours"
  const CLOSING := ">>>>>>> theirs"

  /** In a text with one block, the side names take the place of the library's. */
  lemma BlockIsRelabelled(a: Bytes, inner: Bytes, rest: Bytes, oursName: string, theirsName: string)
    requires forall i: nat :: i < |a| ==> !OccursAt(a + OPENING + (inner + CLOSING + rest), OPENING, i)
    requires !Occurs(inner + CLOSING + rest, OPENING)
    requires var sofar := a + ("<<<<<<< " + oursName) + inner;
      forall i: nat :: i < |sofar| ==> !OccursAt(sofar + CLOSING + rest, CLOSING, i)
    requires !Occurs(rest, CLOSING)
    ensures Relabel(a + OPENING + (inner + CLOSING + rest), oursName, theirsName) ==
            a + ("<<<<<<< " + oursName) + inner + (">>>>>>> " + theirsName) + rest
  {
    var named, rest' := "<<<<<<< " + oursName, inner + CLOSING + rest;
    FirstReplaced(a, OPENING, rest', named);
    NothingReplaced(rest', OPENING, named);
    Regrouped(a + named, inner, CLOSING, rest);
    ClosingIsRelabelled(a + named + inner, rest, ">>>>>>> " + theirsName);
  }

  lemma Regrouped(a: Bytes, b: Bytes, c: Bytes, d: Bytes)
    ensures a + (b + c + d) == a + b + c + d
  {}

  lemma ClosingIsRelabelled(a: Bytes, rest: Bytes, named: Bytes)
    requires forall i: nat :: i < |a| ==> !OccursAt(a + CLOSING + rest, CLOSING, i)
    requires !Occurs(rest, CLOSING)
    ensures ReplaceAll(a + CLOSING + rest, CLOSING, named) == a + named + rest
  {
    FirstReplaced(a, CLOSING, rest, named);
    NothingReplaced(rest, CLOSING, named);
  }

  // -------------------------------------------------------------------------
  // The file in the tree
  // -------------------------------------------------------------------------

  /** What is above `p` is a directory on both sides, and nothing else in the base. */
  ghost predicate WayIsClear(g: Three, p: Path) {
    ParentsInPlace(g.ours, p) && ParentsInPlace(g.theirs, p) &&
    forall a :: ProperAncestor(a, p) && a in g.base ==> g.base[a] == Dir
  }

  /** Both sides changed what `p` holds. */
  ghost predicate BothChanged(g: Three, p: Path) {
    Changed(g.base, g.ours, p) && Changed(g.base, g.theirs, p)
  }

  /** With a clear way a path both sides changed is judged by itself. */
  lemma JudgedByItself(env: Env, g: Three, p: Path)
    requires ValidThree(g) && BothChanged(g, p) && WayIsClear(g, p)
    ensures Reached(env, g, p)
    ensures VerdictAt(env, g, p) == Judge(env, Get(g.base, p), Get(g.ours, p), Get(g.theirs, p),
                                          Inner(g.base, g.ours, p), Inner(g.base, g.theirs, p))
  {
    assert StartsWith(p, p);
    assert Touched(g.base, g.ours, p) && Touched(g.base, g.theirs, p);
    forall a | InUnion(g, a) && a != p && StartsWith(p, a) ensures !Settles(VerdictAt(env, g, a)) {
      assert a != [];
      assert ProperAncestor(a, p);
      assert Touched(g.base, g.ours, a) && Touched(g.base, g.theirs, a);
    }
  }

  ghost predicate IsFileOrAbsent(n: Option<Node>) {
    n == None || n.value.Regular?
  }

  lemma EditIsMerged(env: Env, g: Three, p: Path, o: Bytes, t: Bytes)
    requires ValidThree(g) && BothChanged(g, p) && WayIsClear(g, p) && IsFileOrAbsent(Get(g.base, p))
    requires Get(g.ours, p) == Some(Regular(o)) && Get(g.theirs, p) == Some(Regular(t)) && o != t
    ensures Reached(env, g, p)
    ensures VerdictAt(env, g, p) == OfMerge(MergeFile(env, ContentOf(Get(g.base, p)), Some(o), Some(t)))
  {
    JudgedByItself(env, g, p);
  }

  /** A file that both sides edited and the library merges cleanly: the mainline
      holds the library's text, but for the newline at its end. */
  lemma CleanEditsLand(env: Env, g: Three, plan: MergePlan, p: Path, o: Bytes, t: Bytes, x: Bytes)
    requires ValidThree(g) && IsPlan(env, g, plan)
    requires BothChanged(g, p) && WayIsClear(g, p) && IsFileOrAbsent(Get(g.base, p))
    requires Get(g.ours, p) == Some(Regular(o)) && Get(g.theirs, p) == Some(Regular(t)) && o != t
    requires var b := ContentOf(Get(g.base, p)); AllText(env, [b, Some(o), Some(t)]) && Asked(env, b, o, t) == Clean(x)
    ensures var b := BaseText(ContentOf(Get(g.base, p)));
            Get(Landed(g, plan), p) == Some(Regular(if EndsItsLine(b, o, t) || x == "" then x else x[..|x| - 1]))
  {
    var b := ContentOf(Get(g.base, p));
    var text := if EndsItsLine(BaseText(b), o, t) || x == "" then x else x[..|x| - 1];
    EditIsMerged(env, g, p, o, t);
    MergedOrMarked(env, b, o, t);
    assert ReachedWith(env, g, p, Content(Merged(text)));
    MergedFileLands(env, g, plan, p, text);
  }

  lemma MergedFileLands(env: Env, g: Three, plan: MergePlan, p: Path, text: Bytes)
    requires ValidThree(g) && IsPlan(env, g, plan) && ReachedWith(env, g, p, Content(Merged(text)))
    ensures Get(Landed(g, plan), p) == Some(Regular(text))
  {
    assert MergedFile(p, text) in plan.merged;
    var i :| 0 <= i < |plan.merged| && plan.merged[i] == MergedFile(p, text);
    assert MergedPaths(plan.merged)[i] == p;
    RootsArePlanned(plan);
    assert p in Roots(plan) && StartsWith(p, p);
    OverlayAt(g.theirs, WithFiles(g.ours, plan.merged), Roots(plan), p);
    WithFilesAt(g.ours, plan.merged, i);
  }

  /** The same for texts of complete lines. */
  lemma CompleteLinesLand(env: Env, g: Three, plan: MergePlan, p: Path, b: Bytes, o: Bytes, t: Bytes, x: Bytes)
    requires ValidThree(g) && IsPlan(env, g, plan) && !IsGitInternal(p) && b != o && b != t && o != t
    requires Get(g.base, p) == Some(Regular(b))
    requires Get(g.ours, p) == Some(Regular(o)) && Get(g.theirs, p) == Some(Regular(t))
    requires IsText(env, b) && IsText(env, o) && IsText(env, t)
    requires Terminated(b) && EndsWithNewline(o) && EndsWithNewline(t) && env.library(b, o, t) == Clean(x)
    ensures Get(Landed(g, plan), p) == Some(Regular(x))
  {
    var sides := [Some(b), Some(o), Some(t)];
    assert sides[0] == Some(b) && sides[1] == Some(o) && sides[2] == Some(t);
    assert p in g.base && p in g.ours && p in g.theirs;
    CleanEditsLand(env, g, plan, p, o, t, x);
  }

  /** A file that both sides edited and the library finds in conflict is listed with
      the library's text under the names of the sides. */
  lemma ClashingEditsAreListed(env: Env, g: Three, plan: MergePlan, p: Path, o: Bytes, t: Bytes, y: Bytes)
    requires ValidThree(g) && IsPlan(env, g, plan)
    requires BothChanged(g, p) && WayIsClear(g, p) && IsFileOrAbsent(Get(g.base, p))
    requires Get(g.ours, p) == Some(Regular(o)) && Get(g.theirs, p) == Some(Regular(t)) && o != t
    requires var b := ContentOf(Get(g.base, p));
             AllText(env, [b, Some(o), Some(t)]) && Asked(env, b, o, t) == Conflicts(y)
    ensures exists c :: c in plan.conflicted && c.path == p && c.kind == Hunks &&
                        c.marked == Relabel(y, env.oursName, "mainline")
  {
    var b := ContentOf(Get(g.base, p));
    EditIsMerged(env, g, p, o, t);
    MergedOrMarked(env, b, o, t);
    var r := MergeFile(env, b, Some(o), Some(t)).value;
    assert ReachedWith(env, g, p, Content(Conflicted(r.marked, r.hunks, r.kind)));
    assert ConflictedFile(p, r.marked, r.hunks, r.kind) in plan.conflicted;
  }

  /** A file that one side edited and the other deleted is listed with one block
      that holds the edited text on the side that kept it. */
  lemma EditAgainstDeletionIsListed(env: Env, g: Three, plan: MergePlan, p: Path, b: Bytes, kept: Bytes)
    requires ValidThree(g) && IsPlan(env, g, plan)
    requires BothChanged(g, p) && WayIsClear(g, p)
    requires Get(g.base, p) == Some(Regular(b)) && IsText(env, b) && IsText(env, kept)
    ensures Get(g.ours, p) == Some(Regular(kept)) && Get(g.theirs, p) == None ==>
      ConflictedFile(p, Block(env.oursName + " (modified)", Completed(kept), Completed(b), "", MAINLINE + " (deleted)"),
                     1, TheirsDeleted) in plan.conflicted
    ensures Get(g.theirs, p) == Some(Regular(kept)) && Get(g.ours, p) == None ==>
      ConflictedFile(p, Block(env.oursName + " (deleted)", "", Completed(b), Completed(kept), MAINLINE + " (modified)"),
                     1, OursDeleted) in plan.conflicted
  {
    JudgedByItself(env, g, p);
    ModifiedHereDeletedThere(env, Some(b), kept);
    DeletedHereModifiedThere(env, Some(b), kept);
    if Get(g.ours, p) == Some(Regular(kept)) && Get(g.theirs, p) == None {
      var m := Block(env.oursName + " (modified)", Completed(kept), Completed(b), "", MAINLINE + " (deleted)");
      assert ReachedWith(env, g, p, Content(Conflicted(m, 1, TheirsDeleted)));
    }
    if Get(g.theirs, p) == Some(Regular(kept)) && Get(g.ours, p) == None {
      var m := Block(env.oursName + " (deleted)", "", Completed(b), Completed(kept), MAINLINE + " (modified)");
      assert ReachedWith(env, g, p, Content(Conflicted(m, 1, OursDeleted)));
    }
  }

  // -------------------------------------------------------------------------
  // Refusals
  // -------------------------------------------------------------------------

  /** A directory of the base that one side removed and the other changed something
      in. */
  ghost predicate HeldOpen(base: Tree, kept: Tree, removed: Tree, p: Path) {
    Get(base, p) == Some(Dir) && Get(kept, p) == Some(Dir) && p !in removed
  }

  /** A file on both sides, in place of a file or of nothing, or a file of the base
      that a side has removed. */
  ghost predicate AreFiles(b: Option<Node>, f: Option<Node>, h: Option<Node>) {
    IsFileOrAbsent(b) && IsFileOrAbsent(f) && IsFileOrAbsent(h) && (b != None || (f != None && h != None))
  }

  lemma JudgedRefusal(env: Env, g: Three, plan: MergePlan, r: Refusal)
    requires IsPlan(env, g, plan) && r in plan.refusals
    ensures Touched(g.base, g.ours, r.path) && Touched(g.base, g.theirs, r.path)
    ensures var v := Judge(env, Get(g.base, r.path), Get(g.ours, r.path), Get(g.theirs, r.path),
                           Inner(g.base, g.ours, r.path), Inner(g.base, g.theirs, r.path));
            v.Refuse? && v.reason == r.reason
  {
    assert VerdictAt(env, g, r.path).Refuse?;
  }

  lemma WhyJudgedSo(env: Env, b: Option<Node>, f: Option<Node>, h: Option<Node>, inner: seq<Path>, other: seq<Path>)
    requires Judge(env, b, f, h, inner, other).Refuse?
    ensures var reason := Judge(env, b, f, h, inner, other).reason;
            (reason.Ancestry? <==>
               b == Some(Dir) && ((f == Some(Dir) && h == None) || (f == None && h == Some(Dir)))) &&
            (reason.Binary? || reason.TooLarge? <==> AreFiles(b, f, h))
    ensures AreFiles(b, f, h) ==> !AllText(env, [ContentOf(b), ContentOf(f), ContentOf(h)])
  {
    RefusedExactlyWhen(env, ContentOf(b), ContentOf(f), ContentOf(h));
  }

  /** A refusal of a removed directory names exactly what the side that kept the
      directory changed beneath it, in order. */
  lemma RefusedDirectoryNamesItsChanges(env: Env, g: Three, plan: MergePlan, r: Refusal)
    requires IsPlan(env, g, plan) && r in plan.refusals && r.reason.Ancestry?
    ensures HeldOpen(g.base, g.ours, g.theirs, r.path) || HeldOpen(g.base, g.theirs, g.ours, r.path)
    ensures Ascending(r.reason.inner) && r.reason.inner != []
    ensures HeldOpen(g.base, g.ours, g.theirs, r.path) ==> forall q ::
      q in r.reason.inner <==> Changed(g.base, g.ours, q) && StartsWith(q, r.path) && q != r.path
    ensures HeldOpen(g.base, g.theirs, g.ours, r.path) ==> forall q ::
      q in r.reason.inner <==> Changed(g.base, g.theirs, q) && StartsWith(q, r.path) && q != r.path
  {
    var p := r.path;
    JudgedRefusal(env, g, plan, r);
    var kept := if HeldOpen(g.base, g.ours, g.theirs, p) then g.ours else g.theirs;
    assert r.reason.inner == Inner(g.base, kept, p);
    var q :| Changed(g.base, kept, q) && StartsWith(q, p);
    assert q in Inner(g.base, kept, p);
  }

  /** Which of the reasons a refusal has. */
  lemma WhyRefused(env: Env, g: Three, plan: MergePlan, r: Refusal)
    requires IsPlan(env, g, plan) && r in plan.refusals
    ensures var b, f, h := Get(g.base, r.path), Get(g.ours, r.path), Get(g.theirs, r.path);
            (r.reason.Ancestry? <==>
               HeldOpen(g.base, g.ours, g.theirs, r.path) || HeldOpen(g.base, g.theirs, g.ours, r.path)) &&
            (r.reason.Binary? || r.reason.TooLarge? <==> AreFiles(b, f, h)) &&
            (AreFiles(b, f, h) ==> !AllText(env, [ContentOf(b), ContentOf(f), ContentOf(h)]))
  {
    var b, f, h := Get(g.base, r.path), Get(g.ours, r.path), Get(g.theirs, r.path);
    JudgedRefusal(env, g, plan, r);
    WhyJudgedSo(env, b, f, h, Inner(g.base, g.ours, r.path), Inner(g.base, g.theirs, r.path));
  }
}
