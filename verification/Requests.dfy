/** What each request of the capture pipeline leaves, field by field, when no
    engine call fails: the rows it adds, what it publishes, and what the next
    checkpoint starts from. */
module Requests {
  import opened Paths
  import opened Trees
  import opened Exclude
  import opened Serving
  import opened Watching

  /** The only difference is that a rescan was recorded and published. */
  ghost predicate IsRescanned(rules: Rules, s: Status, r: Rescan, t: Status) {
    var scanned := Rescanned(rules, r);
    t == Status(View(WithTail(rules, r), scanned, s.view.marker, Ready, s.view.shadowed), WithTail(rules, r), 0,
                s.rows + [Row(scanned, Recovered, scanned, s.view.shadowed, true)], s.guests)
  }

  ghost predicate AsksForRescan(poll: Poll) {
    poll.Invalidated? || (poll.Batch? && RootChanged(poll.changes))
  }

  /** The drain comes to no answer that asks for a rescan. */
  ghost predicate NoRescan(rules: Rules, polls: seq<Poll>) {
    forall i :: 0 <= i < |polls| && GetsTo(rules, polls, i) ==> !AsksForRescan(polls[i])
  }

  lemma GetsOn(rules: Rules, polls: seq<Poll>, i: nat)
    requires 0 < i <= |polls|
    ensures GetsTo(rules, polls, i) <==>
            GoesOn(rules, polls[0]) && GetsTo(rules, polls[1..], i - 1)
  {
    var rest := polls[1..];
    if GetsTo(rules, rest, i - 1) {
      forall j | 1 <= j < i ensures GoesOn(rules, polls[j]) {
        assert rest[j - 1] == polls[j];
      }
    }
  }

  /** A drain that gets to an answer that asks for a rescan leaves what that
      rescan does, whatever it had read before. */
  lemma {:induction false} ReadingRescans(rules: Rules, s: Status, polls: seq<Poll>, i: nat)
    requires i < |polls| && GetsTo(rules, polls, i) && AsksForRescan(polls[i])
    ensures IsRescanned(rules, s, polls[i].rescan, Reading(rules, s, polls))
    ensures !Breaks(rules, polls) && FindsNews(rules, polls)
    decreases |polls|
  {
    RebuildsExactly(polls[0]);
    if i > 0 {
      GetsOn(rules, polls, i);
      NewsExactly(rules, polls[0].changes);
      ReadingRescans(rules, Polled(rules, s, polls[0]), polls[1..], i - 1);
    }
  }

  /** Any other drain changes the checkout and nothing else. */
  lemma {:induction false} ReadingHolds(rules: Rules, s: Status, polls: seq<Poll>)
    requires NoRescan(rules, polls)
    ensures Reading(rules, s, polls) == s.(view := s.view.(checkout := Drained(rules, s.view.checkout, polls)))
    decreases |polls|
  {
    if polls != [] {
      RebuildsExactly(polls[0]);
      assert GetsTo(rules, polls, 0) && !AsksForRescan(polls[0]);
      if polls[0].Batch? {
        NewsExactly(rules, polls[0].changes);
      }
      if !Ends(rules, polls[0]) {
        forall i | 0 <= i < |polls[1..]| && GetsTo(rules, polls[1..], i) ensures !AsksForRescan(polls[1..][i]) {
          GetsOn(rules, polls, i + 1);
          assert polls[1..][i] == polls[i + 1];
        }
        ReadingHolds(rules, Polled(rules, s, polls[0]), polls[1..]);
      }
    }
  }

  /** The marker plays no part in a drain. */
  lemma {:induction false} ReadingKeepsMarker(rules: Rules, s: Status, marker: Option<Tree>, polls: seq<Poll>)
    ensures var marked := s.(view := s.view.(marker := marker)); var read := Reading(rules, s, polls);
            Reading(rules, marked, polls) == read.(view := read.view.(marker := marker))
    decreases |polls|
  {
    if polls != [] && !Ends(rules, polls[0]) {
      ReadingKeepsMarker(rules, Polled(rules, s, polls[0]), marker, polls[1..]);
    }
  }

  // -------------------------------------------------------------------------
  // Publishing
  // -------------------------------------------------------------------------

  /** A commit publishes what the checkout holds, and that is all it does. */
  lemma CommitPublishes(cfg: Config, s: Status)
    ensures var t := Served(cfg, Commit, s);
            t.head == s.view.checkout && t.sinceCommit == 0 &&
            t.view == s.view && t.rows == s.rows && t.guests == s.guests
  {}

  /** A session cut from what a commit published lands: its generation is a row,
      and what is found then is recorded and published. */
  lemma CommitThenApplyLands(cfg: Config, s: Status, generation: Tree, rescan: Rescan, swapped: bool)
    ensures var t := Served(cfg, ApplySession(generation, s.view.checkout, rescan, swapped), Served(cfg, Commit, s));
            t.rows == s.rows + [Row(generation, Manual, s.view.checkout, s.view.shadowed, true),
                                Row(Rescanned(cfg.rules, rescan), Recovered, Rescanned(cfg.rules, rescan),
                                    s.view.shadowed, true)] &&
            t.head == t.view.checkout == WithTail(cfg.rules, rescan) && t.sinceCommit == 0
  {
    CommitPublishes(cfg, s);
    ApplyLeaves(cfg, Served(cfg, Commit, s), generation, s.view.checkout, rescan, swapped);
  }

  /** Without the commit it lands exactly when the checkout was published before. */
  lemma ApplyLandsExactlyWhenPublished(cfg: Config, s: Status, generation: Tree, rescan: Rescan, swapped: bool)
    ensures var t := Served(cfg, ApplySession(generation, s.view.checkout, rescan, swapped), s);
            t.rows != s.rows <==> s.head == s.view.checkout
  {
    ApplyLeaves(cfg, s, generation, s.view.checkout, rescan, swapped);
  }

  /** What counting a row does to what is published. */
  ghost predicate CountedOne(cfg: Config, read: Status, t: Status) {
    if read.sinceCommit + 1 < cfg.commitEvery then t.head == read.head && t.sinceCommit == read.sinceCommit + 1
    else t.head == t.view.checkout && t.sinceCommit == 0
  }

  ghost predicate AllCheckpoints(cfg: Config, items: seq<Request>) {
    forall i :: 0 <= i < |items| ==> items[i].Checkpoint? && !Breaks(cfg.rules, items[i].polls)
  }

  ghost predicate Serves(cfg: Config, items: seq<Request>, states: seq<Status>) {
    |states| == |items| + 1 && forall i :: 0 <= i < |items| ==> states[i + 1] == Served(cfg, items[i], states[i])
  }

  /** As many checkpoints in a row as are due for it publish on the way. */
  lemma CheckpointsPublish(cfg: Config, items: seq<Request>, states: seq<Status>) returns (k: nat)
    requires Serves(cfg, items, states) && AllCheckpoints(cfg, items)
    requires states[0].view.state == Ready && !states[0].view.shadowed
    requires |items| >= cfg.commitEvery && |items| > 0
    ensures 0 < k <= |items| && states[k].head == states[k].view.checkout
  {
    k := 1;
    CheckpointRecords(cfg, states[0], items[0].kind, items[0].rescan, items[0].polls);
    if states[1].head != states[1].view.checkout {
      CountGrows(cfg, items[0], states[0], states[1]);
    }
    while states[k].head != states[k].view.checkout
      invariant 0 < k <= |items|
      invariant states[k].view.state == Ready && !states[k].view.shadowed
      invariant states[k].head != states[k].view.checkout ==> k <= states[k].sinceCommit < cfg.commitEvery
      decreases |items| - k
    {
      CheckpointRecords(cfg, states[k], items[k].kind, items[k].rescan, items[k].polls);
      if states[k + 1].head != states[k + 1].view.checkout {
        CountGrows(cfg, items[k], states[k], states[k + 1]);
      }
      k := k + 1;
    }
  }

  lemma CountGrows(cfg: Config, item: Request, s: Status, t: Status)
    requires item.Checkpoint? && !Breaks(cfg.rules, item.polls) && t == Served(cfg, item, s)
    requires s.view.state == Ready && !s.view.shadowed && t.head != t.view.checkout
    ensures t.sinceCommit == s.sinceCommit + 1 < cfg.commitEvery
  {
    var rules, polls := cfg.rules, item.polls;
    CheckpointRecords(cfg, s, item.kind, item.rescan, polls);
    if i: nat :| i < |polls| && GetsTo(rules, polls, i) && AsksForRescan(polls[i]) {
      ReadingRescans(rules, s, polls, i);
    } else {
      ReadingHolds(rules, s, polls);
    }
  }

  // -------------------------------------------------------------------------
  // Checkpoints
  // -------------------------------------------------------------------------

  /** Under a shadow a checkpoint only notes that nothing is recorded. */
  lemma CheckpointUnderShadow(cfg: Config, s: Status, kind: Asked, rescan: Rescan, polls: seq<Poll>)
    requires s.view.shadowed
    ensures Served(cfg, Checkpoint(kind, rescan, polls), s) ==
            s.(rows := s.rows + [Row(s.view.generation, Noop, s.view.checkout, true, true)])
  {}

  /** A pipeline that is not ready rescans first. */
  lemma CheckpointRescansFirst(cfg: Config, s: Status, kind: Asked, rescan: Rescan, polls: seq<Poll>, ready: Status)
    requires !s.view.shadowed && s.view.state != Ready && IsRescanned(cfg.rules, s, rescan, ready)
    ensures Served(cfg, Checkpoint(kind, rescan, polls), s) == Served(cfg, Checkpoint(kind, rescan, polls), ready)
  {}

  /** A ready one drains and writes one row: of what it drained, when there is
      news, or when the marker names the last generation; of the last generation
      otherwise, and when the watcher breaks. */
  lemma CheckpointRecords(cfg: Config, s: Status, kind: Asked, rescan: Rescan, polls: seq<Poll>)
    requires s.view.state == Ready && !s.view.shadowed
    ensures var t, read := Served(cfg, Checkpoint(kind, rescan, polls), s), Reading(cfg.rules, s, polls);
            var c, g, due := read.view.checkout, read.view.generation, s.view.marker == Some(s.view.generation);
            var row := if Breaks(cfg.rules, polls) then Row(g, Failed, c, false, true)
                       else if FindsNews(cfg.rules, polls) || due then Row(c, kind, c, false, true)
                       else Row(g, Noop, c, false, true);
            t.rows == read.rows + [row] && t.guests == s.guests &&
            t.view == View(c, row.generation, if Breaks(cfg.rules, polls) && due then s.view.marker else None, Ready,
                           false)
    ensures var t, read := Served(cfg, Checkpoint(kind, rescan, polls), s), Reading(cfg.rules, s, polls);
            if Breaks(cfg.rules, polls) then t.head == s.head && t.sinceCommit == s.sinceCommit
            else CountedOne(cfg, read, t)
  {
    ReadingKeepsMarker(cfg.rules, s, None, polls);
    ReadingLeaves(cfg.rules, s, polls);
  }

  /** So fewer rows than are due stay unpublished after any checkpoint that got
      through. */
  lemma CountStaysBelow(cfg: Config, s: Status, kind: Asked, rescan: Rescan, polls: seq<Poll>)
    requires !s.view.shadowed && !Breaks(cfg.rules, polls)
    ensures var t := Served(cfg, Checkpoint(kind, rescan, polls), s);
            t.sinceCommit == 0 || t.sinceCommit < cfg.commitEvery
  {
    var ready := ReadyFor(cfg.rules, s, rescan);
    if s.view.state != Ready {
      CheckpointRescansFirst(cfg, s, kind, rescan, polls, ready);
    }
    CheckpointRecords(cfg, ready, kind, rescan, polls);
  }

  /** A checkpoint over batches, with something to read in one of them, records the
      working tree as it was read: at a path outside the rules, what the last
      answer found that had it read again. */
  lemma CheckpointRecordsWhatWasRead(cfg: Config, s: Status, kind: Asked, rescan: Rescan, polls: seq<Poll>, i: nat,
      p: Path)
    requires s.view.state == Ready && !s.view.shadowed && IsClean(s.view.checkout, cfg.rules)
    requires IsCalm(cfg.rules, polls) && i < |polls|
    requires ReadAgain(cfg.rules, polls[i].changes, p) && LeavesAlone(cfg.rules, polls, i + 1, p)
    requires forall r :: r in cfg.rules ==> !(r <= p)
    ensures var t := Served(cfg, Checkpoint(kind, rescan, polls), s);
            t.rows == s.rows + [LastRow(t)] && LastRow(t).kind == kind &&
            Get(LastRow(t).generation, p) == Get(polls[i].live, p)
  {
    CheckpointRecords(cfg, s, kind, rescan, polls);
    CalmNeverRescans(cfg.rules, polls);
    ReadingHolds(cfg.rules, s, polls);
    LastReadingWins(cfg.rules, s.view.checkout, polls, i + 1, p);
    CalmFindsNews(cfg.rules, polls, i);
  }

  lemma CalmNeverRescans(rules: Rules, polls: seq<Poll>)
    requires IsCalm(rules, polls)
    ensures NoRescan(rules, polls)
  {}

  lemma {:induction false} CalmFindsNews(rules: Rules, polls: seq<Poll>, i: nat)
    requires IsCalm(rules, polls) && i < |polls| && exists q :: Readable(rules, polls[i].changes, q)
    ensures FindsNews(rules, polls)
    decreases i
  {
    StillCalm(rules, polls);
    if exists q :: Readable(rules, polls[0].changes, q) {
      DrainReads(rules, map[], polls);
    } else {
      DrainSettles(rules, map[], polls);
      CalmFindsNews(rules, polls[1..], i - 1);
    }
  }

  // -------------------------------------------------------------------------
  // Rows without a checkpoint
  // -------------------------------------------------------------------------

  /** Publishing the head for a reader, or for a fork, records what was drained
      and counts the row, but publishes nothing. */
  lemma HeadIsRecorded(cfg: Config, s: Status, request: Request, polls: seq<Poll>)
    requires request == PublishHead(polls) || request == Request.Fork(polls)
    ensures var t, read := Served(cfg, request, s), Reading(cfg.rules, s, polls);
            if s.view.state != Ready then t == s
            else if Breaks(cfg.rules, polls) then t == s.(view := s.view.(checkout := read.view.checkout))
            else t == Status(read.view.(generation := read.view.checkout), read.head, read.sinceCommit + 1,
                   read.rows + [Row(read.view.checkout, Manual, read.view.checkout, s.view.shadowed, true)], s.guests)
  {
    ReadingLeaves(cfg.rules, s, polls);
  }

  lemma ShadowingLeaves(cfg: Config, s: Status, active: bool)
    ensures Served(cfg, SetShadowed(active), s) == s.(view := s.view.(shadowed := active))
  {}

  /** A generation that is handed in gets a row that the pipeline does not take
      for its own. */
  lemma HandedInLeaves(cfg: Config, s: Status, generation: Tree, handed: Handed)
    ensures Served(cfg, RecordGeneration(generation, handed), s) ==
            s.(rows := s.rows + [Row(generation, handed, s.view.checkout, s.view.shadowed, false)],
               guests := s.guests + {generation})
  {}

  // -------------------------------------------------------------------------
  // Restores
  // -------------------------------------------------------------------------

  lemma RestoreRefused(cfg: Config, s: Status, request: Request)
    requires request.RestorePaths? && (s.view.shadowed || SomeExcluded(cfg.rules, request.paths))
    ensures Served(cfg, request, s) == s
  {}

  lemma RestoreRescansFirst(cfg: Config, s: Status, request: Request, ready: Status)
    requires request.RestorePaths? && !s.view.shadowed && !SomeExcluded(cfg.rules, request.paths)
    requires s.view.state != Ready && IsRescanned(cfg.rules, s, request.rescan, ready)
    ensures Served(cfg, request, s) == Served(cfg, request, ready)
  {}

  /** A drain, and a row for what it left when there is something to lose: news, or
      what a marker stands for. */
  ghost function Guarded(rules: Rules, s: Status, polls: seq<Poll>): Status {
    var read, due := Reading(rules, s, polls), s.view.marker == Some(s.view.generation);
    var c := read.view.checkout;
    if Breaks(rules, polls) then read.(view := read.view.(marker := if due then s.view.marker else None))
    else if FindsNews(rules, polls) || due then
      read.(view := read.view.(marker := None, generation := c),
            rows := read.rows + [Row(c, Manual, c, s.view.shadowed, true)])
    else read.(view := read.view.(marker := None))
  }

  lemma SafetyGuards(rules: Rules, s: Status, polls: seq<Poll>)
    ensures AfterSafety(rules, s, polls) == Guarded(rules, s, polls)
    ensures s.view.state == Ready ==> Guarded(rules, s, polls).view.state == Ready
  {
    ReadingKeepsMarker(rules, s, None, polls);
    ReadingLeaves(rules, s, polls);
  }

  /** The safety row comes first, and the restore goes on from there unless the
      watcher broke. */
  lemma RestoreSafely(cfg: Config, s: Status, request: Request)
    requires request.RestorePaths? && request.safety && !s.view.shadowed && !SomeExcluded(cfg.rules, request.paths)
    requires s.view.state == Ready
    ensures var safe := Guarded(cfg.rules, s, request.before);
            Served(cfg, request, s) ==
              if Breaks(cfg.rules, request.before) then safe else Served(cfg, request.(safety := false), safe)
  {
    SafetyGuards(cfg.rules, s, request.before);
    ReadingLeaves(cfg.rules, s, request.before);
  }

  /** At or beneath a path that was written, or beside it in its directory. */
  ghost predicate Rewritten(paths: seq<Path>, p: Path) {
    exists q :: q in paths && (q <= p || (|q| > 1 && q[..|q| - 1] <= p))
  }

  /** What a restore wrote is read from the working tree, with the directories it
      wrote in, and recorded; when the writes fail, nothing is. */
  lemma RestoreRecords(cfg: Config, s: Status, request: Request, p: Path)
    requires request.RestorePaths? && !request.safety && !s.view.shadowed && !SomeExcluded(cfg.rules, request.paths)
    requires s.view.state == Ready && (request.written.Some? ==> request.leaves)
    ensures var t := Served(cfg, request, s);
            if request.written == None then t == s
            else
              t == Status(s.view.(checkout := t.view.checkout, generation := t.view.checkout), s.head,
                          s.sinceCommit + 1,
                          s.rows + [Row(t.view.checkout, Manual, t.view.checkout, false, true)], s.guests) &&
              Get(t.view.checkout, p) ==
                if exists r :: r in cfg.rules && r <= p then None
                else Get(if Rewritten(request.paths, p) then request.written.value else s.view.checkout, p)
  {
    if request.written.Some? {
      var hints := WrittenHints(request.paths);
      ExcludedExactly(cfg.rules, p);
      OverlayAt(s.view.checkout, request.written.value, Hints(hints), p);
      WrittenHintsCover(request.paths, p);
    }
  }

  lemma WrittenHintsCover(paths: seq<Path>, p: Path)
    ensures Below(p, Hints(WrittenHints(paths))) <==> Rewritten(paths, p)
  {
    var hints := WrittenHints(paths);
    forall q ensures q in Hints(hints) <==> q in paths || q in ParentsOf(paths) {
      HintsAreMentions(hints, q);
      if q in paths {
        var i :| 0 <= i < |paths| && paths[i] == q;
        assert Mentions(hints[i], q);
      }
      if q in ParentsOf(paths) {
        var i :| 0 <= i < |ParentsOf(paths)| && ParentsOf(paths)[i] == q;
        assert Mentions(hints[|paths| + i], q);
      }
    }
    forall q ensures q in ParentsOf(paths) <==> exists r :: r in paths && |r| > 1 && r[..|r| - 1] == q {
      ParentsExactly(paths, q);
    }
    if Below(p, Hints(hints)) {
      var q :| q in Hints(hints) && StartsWith(p, q);
    }
    if Rewritten(paths, p) {
      var q :| q in paths && (q <= p || (|q| > 1 && q[..|q| - 1] <= p));
      assert q in Hints(hints);
      assert |q| > 1 ==> q[..|q| - 1] in Hints(hints);
      assert q <= p ==> StartsWith(p, q);
      assert |q| > 1 && q[..|q| - 1] <= p ==> StartsWith(p, q[..|q| - 1]);
    }
  }

  lemma {:induction false} ParentsExactly(paths: seq<Path>, q: Path)
    ensures q in ParentsOf(paths) <==> exists r :: r in paths && |r| > 1 && r[..|r| - 1] == q
  {
    if paths != [] {
      var k := |paths| - 1;
      ParentsExactly(paths[..k], q);
      assert paths == paths[..k] + [paths[k]];
    }
  }

  /** Where the caller leaves the reading to the watcher, what that drains is
      recorded. */
  lemma RestoreDrains(cfg: Config, s: Status, request: Request)
    requires request.RestorePaths? && !request.safety && !s.view.shadowed && !SomeExcluded(cfg.rules, request.paths)
    requires s.view.state == Ready && request.written.Some? && !request.leaves
    ensures var t, read := Served(cfg, request, s), Reading(cfg.rules, s, request.after);
            t == if Breaks(cfg.rules, request.after) then read
                 else Status(read.view.(generation := read.view.checkout), read.head, read.sinceCommit + 1,
                   read.rows + [Row(read.view.checkout, Manual, read.view.checkout, false, true)], s.guests)
  {
    ReadingLeaves(cfg.rules, s, request.after);
  }

  // -------------------------------------------------------------------------
  // Swaps of the working tree
  // -------------------------------------------------------------------------

  /** The drained state is a row of its own before the swap, and what is found
      after it is recorded and published. */
  lemma RewindRecords(cfg: Config, s: Status, polls: seq<Poll>, rescan: Rescan, swapped: bool)
    ensures var t := Served(cfg, Request.Rewind(polls, rescan, swapped), s);
            var read := Reading(cfg.rules, s.(view := s.view.(state := Rewinding)), polls);
            var c, scanned := read.view.checkout, Rescanned(cfg.rules, rescan);
            t == if Breaks(cfg.rules, polls) then s.(view := s.view.(state := Rewinding, checkout := c))
                 else Status(View(WithTail(cfg.rules, rescan), scanned, s.view.marker, Ready, s.view.shadowed),
                             WithTail(cfg.rules, rescan), 0,
                             read.rows + [Row(c, PreRewind, c, s.view.shadowed, true),
                                          Row(scanned, Recovered, scanned, s.view.shadowed, true)], s.guests)
  {
    ReadingLeaves(cfg.rules, s.(view := s.view.(state := Rewinding)), polls);
  }

  /** The safety row of a session. */
  lemma ResolveRecords(cfg: Config, s: Status, polls: seq<Poll>)
    ensures var t, read := Served(cfg, ResolveSession(polls), s), Reading(cfg.rules, s, polls);
            if s.view.shadowed then
              t == Status(View(s.view.checkout, s.view.checkout, s.view.marker, Ready, false), s.head, s.sinceCommit,
                          s.rows + [Row(s.view.checkout, PreRewind, s.view.checkout, false, true)], s.guests)
            else if Breaks(cfg.rules, polls) then t == read
            else t == read.(view := read.view.(generation := read.view.checkout),
                            rows := read.rows + [Row(read.view.checkout, PreRewind, read.view.checkout, false, true)])
  {
    ReadingLeaves(cfg.rules, s, polls);
  }

  /** A session lands while what it was cut from is still what is published;
      otherwise the checkout goes back to that, and nothing is recorded. */
  lemma ApplyLeaves(cfg: Config, s: Status, generation: Tree, base: Tree, rescan: Rescan, swapped: bool)
    ensures var t := Served(cfg, ApplySession(generation, base, rescan, swapped), s);
            var scanned := Rescanned(cfg.rules, rescan);
            t == if s.head != base then s.(view := s.view.(checkout := s.head, state := Ready))
                 else Status(View(WithTail(cfg.rules, rescan), scanned, s.view.marker, Ready, s.view.shadowed),
                             WithTail(cfg.rules, rescan), 0,
                             s.rows + [Row(generation, Manual, s.head, s.view.shadowed, true),
                                       Row(scanned, Recovered, scanned, s.view.shadowed, true)],
                             s.guests + {generation})
  {}

  /** A promote records and publishes what it drained, and lands its generation
      when that is still its base. */
  lemma PromoteRecords(cfg: Config, s: Status, generation: Tree, base: Tree, pending: bool, polls: seq<Poll>,
      rescan: Rescan, swapped: bool)
    ensures var t := Served(cfg, Request.Promote(generation, base, pending, polls, rescan, swapped), s);
            var read, scanned := Reading(cfg.rules, s, polls), Rescanned(cfg.rules, rescan);
            var c, shadowed := read.view.checkout, s.view.shadowed;
            if Breaks(cfg.rules, polls) then t == s.(view := s.view.(checkout := c))
            else if !pending || c != base then
              t == Status(read.view.(generation := c), c, 0, read.rows + [Row(c, PreRewind, c, shadowed, true)],
                          s.guests)
            else
              t == Status(View(WithTail(cfg.rules, rescan), scanned, s.view.marker, Ready, shadowed),
                          WithTail(cfg.rules, rescan), 0,
                          read.rows + [Row(c, PreRewind, c, shadowed, true),
                                       Row(generation, Manual, generation, shadowed, true),
                                       Row(scanned, Recovered, scanned, shadowed, true)],
                          s.guests + {generation})
  {
    ReadingLeaves(cfg.rules, s, polls);
    if !Breaks(cfg.rules, polls) {
      RecordingExactly(cfg.rules, s, PreRewind, polls);
      OverlayLands(cfg.rules, Recording(cfg.rules, s, PreRewind, polls), generation, base, pending, rescan);
    }
  }

  lemma RecordingExactly(rules: Rules, s: Status, kind: Kind, polls: seq<Poll>)
    requires !Breaks(rules, polls)
    ensures var read := Reading(rules, s, polls); var c := read.view.checkout;
            Recording(rules, s, kind, polls) ==
              read.(view := read.view.(generation := c), rows := read.rows + [Row(c, kind, c, s.view.shadowed, true)])
  {
    ReadingLeaves(rules, s, polls);
  }

  /** The overlay of a promote, once the drained state is recorded. */
  lemma OverlayLands(rules: Rules, s: Status, generation: Tree, base: Tree, pending: bool, rescan: Rescan)
    ensures var t, scanned := AfterOverlay(rules, Published(s), generation, base, pending, rescan),
              Rescanned(rules, rescan);
            if !pending || s.view.checkout != base then t == s.(head := s.view.checkout, sinceCommit := 0)
            else t == Status(View(WithTail(rules, rescan), scanned, s.view.marker, Ready, s.view.shadowed),
                             WithTail(rules, rescan), 0,
                             s.rows + [Row(generation, Manual, generation, s.view.shadowed, true),
                                       Row(scanned, Recovered, scanned, s.view.shadowed, true)],
                             s.guests + {generation})
  {}

  // -------------------------------------------------------------------------
  // Idle ticks
  // -------------------------------------------------------------------------

  /** An idle tick publishes what is waiting, and with the automatic rows on it
      drains and goes on as `TickRecords` says. */
  lemma TickPublishes(cfg: Config, s: Status, polls: seq<Poll>, quiet: bool)
    ensures var due := s.view.state == Ready && s.sinceCommit > 0;
            Served(cfg, Tick(true, polls, quiet), s) ==
            Served(cfg, Tick(false, polls, quiet), if due then s.(head := s.view.checkout, sinceCommit := 0) else s)
    ensures !cfg.autoEnabled || s.view.shadowed || s.view.state != Ready ==>
      Served(cfg, Tick(false, polls, quiet), s) == s
  {}

  /** News, and a watcher that breaks, mark the last generation; a marked one gets
      an automatic row once it has been quiet for long enough, unless the checkout
      is back at it; and a marker that names another generation is dropped. */
  lemma TickRecords(cfg: Config, s: Status, polls: seq<Poll>, quiet: bool)
    requires cfg.autoEnabled && !s.view.shadowed && s.view.state == Ready
    ensures var t, read := Served(cfg, Tick(false, polls, quiet), s), Reading(cfg.rules, s, polls);
            var c, g := read.view.checkout, read.view.generation;
            var marked := FindsNews(cfg.rules, polls) || s.view.marker == Some(g);
            if Breaks(cfg.rules, polls) then t == s.(view := s.view.(checkout := c, marker := Some(g)))
            else if marked && quiet && c != g then
              t.view == read.view.(marker := None, generation := c) &&
              t.rows == read.rows + [Row(c, Auto, c, false, true)] && t.guests == s.guests && CountedOne(cfg, read, t)
            else t == read.(view := read.view.(marker := if marked && !quiet then Some(g) else None))
  {
    ReadingLeaves(cfg.rules, s, polls);
  }

  // -------------------------------------------------------------------------
  // What is answered
  // -------------------------------------------------------------------------

  /** A checkpoint says yes exactly when its row is not that of a failure. */
  lemma CheckpointSays(cfg: Config, s: Status, request: Request)
    requires request.Checkpoint?
    ensures var t := Served(cfg, request, s);
            t.rows != [] && (Answers(cfg.rules, request, s) <==> LastRow(t).kind != Failed)
  {
    if !s.view.shadowed {
      var ready := ReadyFor(cfg.rules, s, request.rescan);
      if s.view.state != Ready {
        CheckpointRescansFirst(cfg, s, request.kind, request.rescan, request.polls, ready);
      }
      CheckpointRecords(cfg, ready, request.kind, request.rescan, request.polls);
    }
  }

  /** A request that records the working tree says yes exactly when it added a row
      for it. */
  lemma RecordingSays(cfg: Config, s: Status, request: Request)
    requires request.PublishHead? || request.Fork? || request.ResolveSession? ||
             (request.RestorePaths? && s.view.state == Ready && !request.safety)
    ensures Answers(cfg.rules, request, s) <==> |Served(cfg, request, s).rows| > |s.rows|
  {
    ReadingLeaves(cfg.rules, s, if request.RestorePaths? then request.after else request.polls);
  }

  /** An apply says yes unless it landed and the swap failed; the requests under
      which nothing gets lost always do. */
  lemma ApplySays(cfg: Config, s: Status, request: Request)
    ensures request.ApplySession? ==>
      (Answers(cfg.rules, request, s) <==> (Served(cfg, request, s).rows != s.rows ==> request.swapped))
    ensures Tolerant(request) ==> Answers(cfg.rules, request, s)
  {
    if request.ApplySession? {
      ApplyLeaves(cfg, s, request.generation, request.base, request.rescan, request.swapped);
    }
  }

  /** A rewind and a promote say no when the watcher broke; a rewind, and a promote
      that lands its generation, when the swap failed. */
  lemma SwapsSay(cfg: Config, s: Status, request: Request)
    requires request.Rewind? || request.Promote?
    ensures Breaks(cfg.rules, request.polls) ==> !Answers(cfg.rules, request, s)
    ensures !Breaks(cfg.rules, request.polls) && request.Rewind? ==>
      (Answers(cfg.rules, request, s) <==> request.swapped)
    ensures !Breaks(cfg.rules, request.polls) && request.Promote? ==>
      var t := Served(cfg, request, s);
      Answers(cfg.rules, request, s) <==> (t.rows != [] && LastRow(t).kind == Recovered ==> request.swapped)
  {
    match request
    case Promote(generation, base, pending, polls, rescan, swapped) =>
      PromoteRecords(cfg, s, generation, base, pending, polls, rescan, swapped);
      ReadingLeaves(cfg.rules, s, polls);
    case _ =>
  }

  // -------------------------------------------------------------------------
  // What is published over a run
  // -------------------------------------------------------------------------

  ghost predicate RescannedBy(rules: Rules, polls: seq<Poll>, head: Tree) {
    exists i :: 0 <= i < |polls| && !polls[i].Broken? && head == WithTail(rules, polls[i].rescan)
  }

  lemma {:induction false} ReadingPublishes(rules: Rules, s: Status, polls: seq<Poll>)
    ensures var read := Reading(rules, s, polls); read.head == s.head || RescannedBy(rules, polls, read.head)
  {
    if i: nat :| i < |polls| && GetsTo(rules, polls, i) && AsksForRescan(polls[i]) {
      ReadingRescans(rules, s, polls, i);
    } else {
      ReadingHolds(rules, s, polls);
    }
  }

  /** What a request may publish besides what its checkout holds afterwards: what a
      rescan of its own read, and for an idle tick what the checkout held before. */
  ghost predicate PublishedOnTheWay(cfg: Config, request: Request, s: Status, head: Tree) {
    match request
    case Checkpoint(_, rescan, polls) =>
      !s.view.shadowed && (head == WithTail(cfg.rules, rescan) || RescannedBy(cfg.rules, polls, head))
    case RestorePaths(_, _, rescan, before, _, _, after) =>
      head == WithTail(cfg.rules, rescan) || RescannedBy(cfg.rules, before, head) || RescannedBy(cfg.rules, after, head)
    case PublishHead(polls) => RescannedBy(cfg.rules, polls, head)
    case Fork(polls) => RescannedBy(cfg.rules, polls, head)
    case ResolveSession(polls) => RescannedBy(cfg.rules, polls, head)
    case Tick(idle, polls, _) => (idle && head == s.view.checkout) || RescannedBy(cfg.rules, polls, head)
    case _ => false
  }

  /** A request leaves what is published, publishes what its checkout then holds,
      or published something on the way. */
  lemma HeadMoves(cfg: Config, request: Request, s: Status)
    ensures var t := Served(cfg, request, s);
            t.head == s.head || t.head == t.view.checkout || PublishedOnTheWay(cfg, request, s, t.head)
    ensures var t := Served(cfg, request, s);
            (request.Commit? || request.ApplySession? || (request.Rewind? && !Breaks(cfg.rules, request.polls)) ||
             (request.Promote? && !Breaks(cfg.rules, request.polls))) ==>
            t.head == t.view.checkout
    ensures request.SetShadowed? || request.RecordGeneration? ==> Served(cfg, request, s).head == s.head
  {
    match request
    case Checkpoint(kind, rescan, polls) => CheckpointHead(cfg, s, kind, rescan, polls);
    case RestorePaths(_, _, _, _, _, _, _) => RestoreHead(cfg, s, request);
    case PublishHead(polls) => HeadIsRecorded(cfg, s, request, polls); ReadingPublishes(cfg.rules, s, polls);
    case Fork(polls) => HeadIsRecorded(cfg, s, request, polls); ReadingPublishes(cfg.rules, s, polls);
    case Rewind(polls, rescan, swapped) => RewindRecords(cfg, s, polls, rescan, swapped);
    case ResolveSession(polls) => ResolveRecords(cfg, s, polls); ReadingPublishes(cfg.rules, s, polls);
    case ApplySession(generation, base, rescan, swapped) => ApplyLeaves(cfg, s, generation, base, rescan, swapped);
    case Promote(generation, base, pending, polls, rescan, swapped) =>
      PromoteRecords(cfg, s, generation, base, pending, polls, rescan, swapped);
    case Tick(idle, polls, quiet) => TickHead(cfg, s, idle, polls, quiet);
    case _ =>
  }

  ghost function ReadyFor(rules: Rules, s: Status, r: Rescan): Status {
    var scanned := Rescanned(rules, r);
    if s.view.state == Ready then s
    else Status(View(WithTail(rules, r), scanned, s.view.marker, Ready, s.view.shadowed), WithTail(rules, r), 0,
                s.rows + [Row(scanned, Recovered, scanned, s.view.shadowed, true)], s.guests)
  }

  lemma CheckpointHead(cfg: Config, s: Status, kind: Asked, rescan: Rescan, polls: seq<Poll>)
    ensures var request := Checkpoint(kind, rescan, polls); var t := Served(cfg, request, s);
            t.head == s.head || t.head == t.view.checkout || PublishedOnTheWay(cfg, request, s, t.head)
  {
    var ready := ReadyFor(cfg.rules, s, rescan);
    if !s.view.shadowed {
      if s.view.state != Ready {
        CheckpointRescansFirst(cfg, s, kind, rescan, polls, ready);
      }
      CheckpointRecords(cfg, ready, kind, rescan, polls);
      ReadingPublishes(cfg.rules, ready, polls);
    }
  }

  lemma RestoreHead(cfg: Config, s: Status, request: Request)
    requires request.RestorePaths?
    ensures var t := Served(cfg, request, s);
            t.head == s.head || PublishedOnTheWay(cfg, request, s, t.head)
  {
    if !s.view.shadowed && !SomeExcluded(cfg.rules, request.paths) {
      var ready := ReadyFor(cfg.rules, s, request.rescan);
      if s.view.state != Ready {
        RestoreRescansFirst(cfg, s, request, ready);
      }
      ReadingPublishes(cfg.rules, ready, request.before);
      var safe := if request.safety then Guarded(cfg.rules, ready, request.before) else ready;
      if request.safety {
        SafetyGuards(cfg.rules, ready, request.before);
        RestoreSafely(cfg, ready, request);
      }
      RestoreWritesHead(cfg, safe, request.(safety := false));
    }
  }

  lemma RestoreWritesHead(cfg: Config, s: Status, request: Request)
    requires request.RestorePaths? && !request.safety && s.view.state == Ready
    ensures var t := Served(cfg, request, s); t.head == s.head || RescannedBy(cfg.rules, request.after, t.head)
  {
    if !s.view.shadowed && !SomeExcluded(cfg.rules, request.paths) {
      if request.written.Some? && !request.leaves {
        RestoreDrains(cfg, s, request);
        ReadingPublishes(cfg.rules, s, request.after);
      } else {
        RestoreRecords(cfg, s, request, []);
      }
    }
  }

  lemma TickHead(cfg: Config, s: Status, idle: bool, polls: seq<Poll>, quiet: bool)
    ensures var request := Tick(idle, polls, quiet); var t := Served(cfg, request, s);
            t.head == s.head || t.head == t.view.checkout || PublishedOnTheWay(cfg, request, s, t.head)
  {
    TickPublishes(cfg, s, polls, quiet);
    var due := idle && s.view.state == Ready && s.sinceCommit > 0;
    var begun := if due then s.(head := s.view.checkout, sinceCommit := 0) else s;
    if cfg.autoEnabled && !s.view.shadowed && s.view.state == Ready {
      TickRecords(cfg, begun, polls, quiet);
      ReadingPublishes(cfg.rules, begun, polls);
    } else {
      TickPublishes(cfg, begun, polls, quiet);
    }
  }

  /** So over any run in which nothing fails. */
  lemma RunPublishes(cfg: Config, first: Rescan, items: seq<Item>, states: seq<Status>, i: nat)
    requires IsRun(cfg, first, items, states) && NoFaults(items) && i < |items|
    ensures states[0].head == states[0].view.checkout
    ensures states[i + 1].head == states[i].head || states[i + 1].head == states[i + 1].view.checkout ||
            PublishedOnTheWay(cfg, items[i].0, states[i], states[i + 1].head)
    ensures items[i].0 == Commit ==> states[i + 1] == states[i].(head := states[i].view.checkout, sinceCommit := 0)
  {
    HeadMoves(cfg, items[i].0, states[i]);
    CommitPublishes(cfg, states[i]);
    assert Steps(cfg, items[i], states[i], states[i + 1]);
  }

  /** A started pipeline: the rescanned tree is the one row, and what raced the
      rescan is captured and published with it. */
  lemma StartLeaves(rules: Rules, first: Rescan)
    ensures var t, scanned := Started(rules, first), Rescanned(rules, first);
            t == Status(View(WithTail(rules, first), scanned, None, Ready, false), WithTail(rules, first), 0,
                        [Row(scanned, Baseline, scanned, false, true)], {})
  {}
}
