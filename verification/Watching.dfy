/** What the pipeline makes of the watcher's answers, in terms of the changes they
    list: which paths are read again, when a drain ends, and what is left of
    several answers in the end. */
module Watching {
  import opened Paths
  import opened Trees
  import opened Exclude
  import opened Serving

  // -------------------------------------------------------------------------
  // Changes
  // -------------------------------------------------------------------------

  ghost predicate Mentions(change: WatchChange, q: Path) {
    if change.Renamed? then q == change.src || q == change.dst else q == change.path
  }

  /** Something happened to the root itself. */
  ghost predicate RootChanged(changes: seq<WatchChange>) {
    exists i :: 0 <= i < |changes| && Mentions(changes[i], []) && !changes[i].MetadataChanged?
  }

  /** `q` is mentioned by a change that is not about the root, and no rule covers it. */
  ghost predicate Readable(rules: Rules, changes: seq<WatchChange>, q: Path) {
    (exists i :: 0 <= i < |changes| && Mentions(changes[i], q) && !Mentions(changes[i], [])) &&
    forall r :: r in rules ==> !(r <= q)
  }

  /** `p` is read again: it lies at or beneath such a path. */
  ghost predicate ReadAgain(rules: Rules, changes: seq<WatchChange>, p: Path) {
    exists q :: Readable(rules, changes, q) && q <= p
  }

  lemma {:induction false} HintsAreMentions(changes: seq<WatchChange>, q: Path)
    ensures q in Hints(changes) <==> exists i :: 0 <= i < |changes| && Mentions(changes[i], q)
  {
    if changes != [] {
      var k := |changes| - 1;
      var before := changes[..k];
      HintsAreMentions(before, q);
      if i :| 0 <= i < |before| && Mentions(before[i], q) {
        assert changes[i] == before[i];
      }
      if i :| 0 <= i < |changes| && Mentions(changes[i], q) && i < k {
        assert before[i] == changes[i];
      }
    }
  }

  lemma {:induction false} StrippedKeeps(changes: seq<WatchChange>, c: WatchChange)
    ensures c in Stripped(changes) <==> c in changes && !Mentions(c, [])
  {
    if changes != [] {
      var k := |changes| - 1;
      StrippedKeeps(changes[..k], c);
      assert changes == changes[..k] + [changes[k]];
      RootMentioned(changes[k]);
    }
  }

  lemma RootMentioned(c: WatchChange)
    ensures RootHintOf(c) == NoHint <==> !Mentions(c, [])
    ensures RootHintOf(c) == Structural <==> Mentions(c, []) && !c.MetadataChanged?
  {}

  /** The paths a batch has read again are the readable ones, and there is news
      exactly when there is one. */
  lemma RecordableExactly(rules: Rules, changes: seq<WatchChange>, q: Path)
    ensures q in Recordable(rules, changes) <==> Readable(rules, changes, q)
  {
    HintsAreMentions(Stripped(changes), q);
    ExcludedExactly(rules, q);
    if i :| 0 <= i < |Stripped(changes)| && Mentions(Stripped(changes)[i], q) {
      var c := Stripped(changes)[i];
      StrippedKeeps(changes, c);
      var j :| 0 <= j < |changes| && changes[j] == c;
    }
    if i :| 0 <= i < |changes| && Mentions(changes[i], q) && !Mentions(changes[i], []) {
      StrippedKeeps(changes, changes[i]);
      var j :| 0 <= j < |Stripped(changes)| && Stripped(changes)[j] == changes[i];
    }
  }

  lemma NewsExactly(rules: Rules, changes: seq<WatchChange>)
    ensures HasNews(rules, changes) <==> exists q :: Readable(rules, changes, q)
  {
    if h :| h in Hints(Stripped(changes)) && !IsExcluded(rules, h) {
      RecordableExactly(rules, changes, h);
    }
    if q :| Readable(rules, changes, q) {
      RecordableExactly(rules, changes, q);
    }
  }

  lemma RebuildsExactly(poll: Poll)
    ensures Rebuilds(poll) <==> poll.Invalidated? || (poll.Batch? && RootChanged(poll.changes))
  {
    if poll.Batch? {
      forall i | 0 <= i < |poll.changes| ensures RootHintOf(poll.changes[i]) == Structural <==>
        Mentions(poll.changes[i], []) && !poll.changes[i].MetadataChanged?
      {
        RootMentioned(poll.changes[i]);
      }
    }
  }

  // -------------------------------------------------------------------------
  // What is read
  // -------------------------------------------------------------------------

  /** A checkout without excluded paths after a batch: what is read again is as it
      is in the working tree, everything else stays, and nothing excluded gets in. */
  lemma TakenExactly(rules: Rules, checkout: Tree, live: Tree, changes: seq<WatchChange>, p: Path)
    requires IsClean(checkout, rules)
    ensures Get(Taken(rules, checkout, live, changes), p) ==
            if exists r :: r in rules && r <= p then None
            else Get(if ReadAgain(rules, changes, p) then live else checkout, p)
  {
    var roots := Recordable(rules, changes);
    ExcludedExactly(rules, p);
    OverlayAt(checkout, live, roots, p);
    forall q ensures q in roots <==> Readable(rules, changes, q) {
      RecordableExactly(rules, changes, q);
    }
    if Below(p, roots) {
      var q :| q in roots && StartsWith(p, q);
      if IsExcluded(rules, p) {
        ReadAboveExcluded(rules, changes, q, p);
      }
    }
  }

  lemma ReadAboveExcluded(rules: Rules, changes: seq<WatchChange>, q: Path, p: Path)
    requires q in Recordable(rules, changes) && StartsWith(p, q) && IsExcluded(rules, p)
    ensures NeedsScrub(rules, changes)
  {
    var i :| 0 <= i < |rules| && StartsWith(p, rules[i]);
    assert !StartsWith(q, rules[i]);
    AncestorsAreComparable(rules[i], q, p);
    assert StartsWith(rules[i], q) && q != rules[i];
    assert IsAncestor(rules, q);
  }

  /** A rescan reads the working tree without what the rules cover; changes that
      raced it are read on top. */
  lemma RescannedExactly(rules: Rules, r: Rescan, p: Path)
    ensures Get(Rescanned(rules, r), p) == if exists x :: x in rules && x <= p then None else Get(r.live, p)
    ensures Get(WithTail(rules, r), p) ==
            if exists x :: x in rules && x <= p then None
            else Get(if ReadAgain([], r.tail, p) then r.tailLive else r.live, p)
  {
    ExcludedExactly(rules, p);
    var hints := Hints(Stripped(r.tail));
    OverlayAt(Rescanned(rules, r), r.tailLive, hints, p);
    assert Recordable([], r.tail) == hints;
    forall q ensures q in hints <==> Readable([], r.tail, q) {
      RecordableExactly([], r.tail, q);
    }
    if Stripped(r.tail) == [] {
      NoHintsNoChanges(Stripped(r.tail));
    }
  }

  // -------------------------------------------------------------------------
  // Drains
  // -------------------------------------------------------------------------

  /** The watcher breaks under the drain: what was read before stays read. */
  lemma DrainOverBreak(rules: Rules, checkout: Tree, polls: seq<Poll>)
    requires polls != [] && polls[0].Broken?
    ensures Breaks(rules, polls) && !FindsNews(rules, polls) && Drained(rules, checkout, polls) == checkout
  {}

  /** An answer that invalidates everything, or says that the root changed, ends
      the drain with a rescan. */
  lemma DrainRescans(rules: Rules, checkout: Tree, polls: seq<Poll>)
    requires polls != [] && (polls[0].Invalidated? || (polls[0].Batch? && RootChanged(polls[0].changes)))
    ensures !Breaks(rules, polls) && FindsNews(rules, polls)
    ensures Drained(rules, checkout, polls) == WithTail(rules, polls[0].rescan)
  {
    RebuildsExactly(polls[0]);
  }

  ghost predicate IsPlain(poll: Poll) {
    poll.Batch? && !RootChanged(poll.changes)
  }

  /** A batch with something to read is read, and the drain goes on. */
  lemma DrainReads(rules: Rules, checkout: Tree, polls: seq<Poll>)
    requires polls != [] && IsPlain(polls[0]) && exists q :: Readable(rules, polls[0].changes, q)
    ensures FindsNews(rules, polls) && (Breaks(rules, polls) <==> Breaks(rules, polls[1..]))
    ensures Drained(rules, checkout, polls) ==
            Drained(rules, Taken(rules, checkout, polls[0].live, polls[0].changes), polls[1..])
  {
    RebuildsExactly(polls[0]);
    NewsExactly(rules, polls[0].changes);
  }

  /** A batch with nothing to read ends the drain once the watcher has settled. */
  lemma DrainSettles(rules: Rules, checkout: Tree, polls: seq<Poll>)
    requires polls != [] && IsPlain(polls[0]) && !exists q :: Readable(rules, polls[0].changes, q)
    ensures polls[0].settled ==>
      !Breaks(rules, polls) && !FindsNews(rules, polls) && Drained(rules, checkout, polls) == checkout
    ensures !polls[0].settled ==>
      (Breaks(rules, polls) <==> Breaks(rules, polls[1..])) &&
      (FindsNews(rules, polls) <==> FindsNews(rules, polls[1..])) &&
      Drained(rules, checkout, polls) == Drained(rules, checkout, polls[1..])
  {
    RebuildsExactly(polls[0]);
    NewsExactly(rules, polls[0].changes);
    NothingTaken(rules, checkout, polls[0].live, polls[0].changes);
  }

  /** A batch after which the drain goes on: there is something to read in it, or
      the watcher has not settled. */
  ghost predicate GoesOn(rules: Rules, poll: Poll) {
    IsPlain(poll) && ((exists q :: Readable(rules, poll.changes, q)) || !poll.settled)
  }

  /** The drain gets as far as the answer `i`: it goes on after each before that. */
  ghost predicate GetsTo(rules: Rules, polls: seq<Poll>, i: nat) {
    i <= |polls| && forall j :: 0 <= j < i ==> GoesOn(rules, polls[j])
  }

  /** The drain reads all its answers as batches; the last may be the one that ends
      it. */
  ghost predicate IsCalm(rules: Rules, polls: seq<Poll>) {
    polls == [] || (GetsTo(rules, polls, |polls| - 1) && IsPlain(polls[|polls| - 1]))
  }

  /** No answer reads the path again, and it stays as it was. */
  ghost predicate LeavesAlone(rules: Rules, polls: seq<Poll>, from: nat, p: Path) {
    forall j :: from <= j < |polls| && polls[j].Batch? ==> !ReadAgain(rules, polls[j].changes, p)
  }

  /** After a drain of batches a path outside the rules is as the last answer found
      it that had it read again, and as it was if none had. */
  lemma {:induction false} LastReadingWins(rules: Rules, checkout: Tree, polls: seq<Poll>, i: nat, p: Path)
    requires IsClean(checkout, rules) && IsCalm(rules, polls) && i <= |polls|
    requires forall r :: r in rules ==> !(r <= p)
    requires LeavesAlone(rules, polls, i, p) && (i > 0 ==> ReadAgain(rules, polls[i - 1].changes, p))
    ensures !Breaks(rules, polls)
    ensures Get(Drained(rules, checkout, polls), p) == Get(if i == 0 then checkout else polls[i - 1].live, p)
    decreases |polls|
  {
    if polls != [] {
      var next := Taken(rules, checkout, polls[0].live, polls[0].changes);
      StillCalm(rules, polls);
      TakenStaysClean(rules, checkout, polls[0].live, polls[0].changes);
      TakenExactly(rules, checkout, polls[0].live, polls[0].changes, p);
      if exists q :: Readable(rules, polls[0].changes, q) {
        DrainReads(rules, checkout, polls);
      } else {
        DrainSettles(rules, checkout, polls);
        NewsExactly(rules, polls[0].changes);
        NothingTaken(rules, checkout, polls[0].live, polls[0].changes);
      }
      if i <= 1 {
        LastReadingWins(rules, next, polls[1..], 0, p);
      } else {
        LastReadingWins(rules, next, polls[1..], i - 1, p);
      }
    }
  }

  lemma StillCalm(rules: Rules, polls: seq<Poll>)
    requires polls != [] && IsCalm(rules, polls)
    ensures IsPlain(polls[0]) && IsCalm(rules, polls[1..])
    ensures |polls| > 1 ==> GoesOn(rules, polls[0])
  {
    if |polls| > 1 {
      var rest := polls[1..];
      forall j | 0 <= j < |rest| - 1 ensures GoesOn(rules, rest[j]) {
        assert rest[j] == polls[j + 1];
      }
    }
  }

  lemma TakenStaysClean(rules: Rules, checkout: Tree, live: Tree, changes: seq<WatchChange>)
    requires IsClean(checkout, rules)
    ensures IsClean(Taken(rules, checkout, live, changes), rules)
  {
    forall p | p in Taken(rules, checkout, live, changes) ensures !IsExcluded(rules, p) {
      TakenExactly(rules, checkout, live, changes, p);
      ExcludedExactly(rules, p);
    }
  }
}
