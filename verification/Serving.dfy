/** What the requests of the capture pipeline do, as functions on values: the
    state of the pipeline with its timeline before a request, and after it when
    no engine call fails.  Everything the world does (watcher batches, the live
    tree at each capture) is part of the request. */
module Serving {
  import opened Paths
  import opened Trees
  import opened Exclude

  datatype State = Baselining | Ready | Rewinding

  datatype Kind = Baseline | Pre | Post | Manual | PreRewind | Recovered | Failed | Noop | Auto

  /** The kinds a client can ask for. */
  type Asked = k: Kind | k == Pre || k == Post || k == Manual witness Manual

  /** The kinds a generation that is handed in is recorded as. */
  type Handed = k: Kind | k == Manual || k == PreRewind witness Manual

  /** One row of the timeline, with what the checkout held when it was written
      and whether a session was shadowing the repository then.  `own` rows name
      what the pipeline takes for its last generation. */
  datatype Row = Row(generation: Tree, kind: Kind, checkout: Tree, shadowed: bool, own: bool)

  /** What a full rescan reads, and the changes that raced it. */
  datatype Rescan = Rescan(live: Tree, tail: seq<WatchChange>, tailLive: Tree)

  /** One answer of the watcher; `settled` says that an empty one ends the
      quiesce window. */
  datatype Poll =
    | Batch(changes: seq<WatchChange>, live: Tree, settled: bool, rescan: Rescan)
    | Invalidated(rescan: Rescan)
    | Broken

  /** The engine call after `after` good ones fails; a capture or a scrub that
      fails leaves `debris` in the checkout. */
  datatype Fault = Fault(after: nat, debris: Tree)

  datatype Request =
    | Checkpoint(kind: Asked, rescan: Rescan, polls: seq<Poll>)
    | Commit
    | RestorePaths(paths: seq<Path>, safety: bool, rescan: Rescan, before: seq<Poll>,
                   written: Option<Tree>, leaves: bool, after: seq<Poll>)
    | PublishHead(polls: seq<Poll>)
    | Fork(polls: seq<Poll>)
    | Rewind(polls: seq<Poll>, rescan: Rescan, swapped: bool)
    | SetShadowed(active: bool)
    | ResolveSession(polls: seq<Poll>)
    | ApplySession(generation: Tree, base: Tree, rescan: Rescan, swapped: bool)
    | Promote(generation: Tree, base: Tree, pending: bool, polls: seq<Poll>, rescan: Rescan, swapped: bool)
    | RecordGeneration(generation: Tree, handed: Handed)
    | Tick(commitIdle: bool, polls: seq<Poll>, quietLongEnough: bool)

  datatype Config = Config(rules: Rules, commitEvery: nat, autoEnabled: bool)

  // -------------------------------------------------------------------------
  // What a rescan and a drain should read
  // -------------------------------------------------------------------------

  function Rescanned(rules: Rules, r: Rescan): Tree {
    Scrubbed(r.live, rules)
  }

  function WithTail(rules: Rules, r: Rescan): Tree {
    if Stripped(r.tail) == [] then Rescanned(rules, r)
    else Scrubbed(Captured(Rescanned(rules, r), r.tailLive, Stripped(r.tail)), rules)
  }

  ghost predicate LateNews(rules: Rules, r: Rescan) {
    WithTail(rules, r) != Rescanned(rules, r)
  }

  /** Some hint of the batch is about a path that may be recorded. */
  ghost predicate HasNews(rules: Rules, changes: seq<WatchChange>) {
    exists h :: h in Hints(Stripped(changes)) && !IsExcluded(rules, h)
  }

  ghost predicate Rebuilds(poll: Poll) {
    poll.Invalidated? || (poll.Batch? && Hinted(poll.changes, Structural))
  }

  ghost predicate IsNews(rules: Rules, poll: Poll) {
    Rebuilds(poll) || (poll.Batch? && HasNews(rules, poll.changes))
  }

  /** The drain stops here: rebuilt, given up, or quiet. */
  ghost predicate Ends(rules: Rules, poll: Poll) {
    Rebuilds(poll) || poll.Broken? || (!HasNews(rules, poll.changes) && poll.settled)
  }

  /** Whether a drain that reads these answers gives up. */
  ghost predicate Breaks(rules: Rules, polls: seq<Poll>) {
    polls != [] && (polls[0].Broken? || (!Ends(rules, polls[0]) && Breaks(rules, polls[1..])))
  }

  /** Whether it finds anything. */
  ghost predicate FindsNews(rules: Rules, polls: seq<Poll>) {
    polls != [] && (IsNews(rules, polls[0]) || (!Ends(rules, polls[0]) && FindsNews(rules, polls[1..])))
  }

  ghost predicate NeedsScrub(rules: Rules, changes: seq<WatchChange>) {
    exists h :: h in Hints(Stripped(changes)) && !IsExcluded(rules, h) && IsAncestor(rules, h)
  }

  /** What may be recorded of the hinted paths. */
  function Recordable(rules: Rules, changes: seq<WatchChange>): set<Path> {
    set h | h in Hints(Stripped(changes)) && !IsExcluded(rules, h)
  }

  /** A batch taken in: every path that may be recorded re-read, and excluded ones
      stripped when one of those paths lies above a rule. */
  ghost function Taken(rules: Rules, checkout: Tree, live: Tree, changes: seq<WatchChange>): Tree {
    var read := Overlay(checkout, live, Recordable(rules, changes));
    if NeedsScrub(rules, changes) then Scrubbed(read, rules) else read
  }

  /** That is what capturing the filtered batch leaves, with a scrub when asked
      for; and in a checkout without excluded paths it is the whole batch re-read
      with everything excluded stripped. */
  lemma TakenIsStripped(rules: Rules, checkout: Tree, live: Tree, changes: seq<WatchChange>,
                        kept: seq<WatchChange>, scrub: bool)
    requires RightlyFiltered(rules, Stripped(changes), kept, scrub)
    ensures Taken(rules, checkout, live, changes) ==
            if scrub then Scrubbed(Captured(checkout, live, kept), rules) else Captured(checkout, live, kept)
    ensures IsClean(checkout, rules) ==>
      Taken(rules, checkout, live, changes) == Scrubbed(Captured(checkout, live, Stripped(changes)), rules)
  {
    assert Hints(kept) == Recordable(rules, changes);
    ScrubIsNeeded(rules, changes, kept, scrub);
    if IsClean(checkout, rules) {
      FilteredCaptureIsStripped(rules, checkout, live, Stripped(changes), kept, scrub);
    }
  }

  lemma ScrubIsNeeded(rules: Rules, changes: seq<WatchChange>, kept: seq<WatchChange>, scrub: bool)
    requires RightlyFiltered(rules, Stripped(changes), kept, scrub)
    ensures scrub <==> NeedsScrub(rules, changes)
  {
    if scrub {
      var h :| h in Hints(kept) && IsAncestor(rules, h);
      assert h in Hints(Stripped(changes)) && !IsExcluded(rules, h);
    }
    if NeedsScrub(rules, changes) {
      var h :| h in Hints(Stripped(changes)) && !IsExcluded(rules, h) && IsAncestor(rules, h);
      assert h in Hints(kept);
    }
  }

  lemma NothingTaken(rules: Rules, checkout: Tree, live: Tree, changes: seq<WatchChange>)
    requires !HasNews(rules, changes)
    ensures Taken(rules, checkout, live, changes) == checkout
  {
    assert Recordable(rules, changes) == {};
    OverlayNothing(checkout, live);
  }

  /** What one answer leaves. */
  ghost function Answered(rules: Rules, checkout: Tree, poll: Poll): Tree {
    if poll.Broken? then checkout
    else if Rebuilds(poll) then WithTail(rules, poll.rescan)
    else Taken(rules, checkout, poll.live, poll.changes)
  }

  /** What the whole drain leaves. */
  ghost function Drained(rules: Rules, checkout: Tree, polls: seq<Poll>): Tree
    decreases |polls|
  {
    if polls == [] then checkout
    else
      var next := Answered(rules, checkout, polls[0]);
      if Ends(rules, polls[0]) then next else Drained(rules, next, polls[1..])
  }

  lemma ScrubbedIsClean(t: Tree, rules: Rules)
    ensures IsClean(Scrubbed(t, rules), rules)
  {}

  lemma CleanIsScrubbed(t: Tree, rules: Rules)
    requires IsClean(t, rules)
    ensures Scrubbed(t, rules) == t
  {}

  lemma NoHintsNoChanges(changes: seq<WatchChange>)
    ensures Hints(changes) == {} <==> changes == []
  {
    if changes != [] {
      var last := changes[|changes| - 1];
      assert (if last.Renamed? then last.src else last.path) in Hints(changes);
    }
  }

  /** The filter keeps something exactly when there is news. */
  lemma KeptIsNews(rules: Rules, changes: seq<WatchChange>, kept: seq<WatchChange>, scrub: bool)
    requires RightlyFiltered(rules, Stripped(changes), kept, scrub)
    ensures kept != [] <==> HasNews(rules, changes)
  {
    NoHintsNoChanges(kept);
    if kept != [] {
      var h :| h in Hints(kept);
    }
  }

  // -------------------------------------------------------------------------
  // Engine calls
  // -------------------------------------------------------------------------

  /** The next `n` engine calls are good. */
  ghost predicate Outlasts(fault: Option<Fault>, n: nat) {
    fault == None || fault.value.after >= n
  }

  ghost function Spend(fault: Option<Fault>, n: nat): Option<Fault>
    requires Outlasts(fault, n)
  {
    if fault == None then None else Some(fault.value.(after := fault.value.after - n))
  }

  /** If that call is a capture or a scrub, it leaves an excluded path. */
  predicate Spoils(rules: Rules, fault: Option<Fault>) {
    fault.Some? && !IsClean(fault.value.debris, rules)
  }

  /** How many engine calls a rescan makes. */
  function RescanCalls(rescan: Rescan): nat {
    if Stripped(rescan.tail) == [] then 8 else 10
  }

  function ReadyCalls(state: State, rescan: Rescan): nat {
    if state == Ready then 0 else RescanCalls(rescan)
  }

  /** The captures and scrubs of a batch. */
  ghost function BatchCalls(rules: Rules, changes: seq<WatchChange>): nat {
    if !HasNews(rules, changes) then 0 else if NeedsScrub(rules, changes) then 2 else 1
  }

  ghost function PollCalls(rules: Rules, poll: Poll): nat {
    1 + if poll.Broken? then 0 else if Rebuilds(poll) then RescanCalls(poll.rescan) else BatchCalls(rules, poll.changes)
  }

  ghost function DrainCalls(rules: Rules, polls: seq<Poll>): nat
    decreases |polls|
  {
    if polls == [] then 0
    else PollCalls(rules, polls[0]) + if Ends(rules, polls[0]) then 0 else DrainCalls(rules, polls[1..])
  }

  /** The `n`-th call of the drain is the capture or the scrub of a batch. */
  ghost predicate CutsShort(rules: Rules, polls: seq<Poll>, n: nat)
    decreases |polls|
  {
    polls != [] && !polls[0].Broken? && !Rebuilds(polls[0]) &&
    if n < PollCalls(rules, polls[0]) then n > 0
    else !Ends(rules, polls[0]) && CutsShort(rules, polls[1..], n - PollCalls(rules, polls[0]))
  }

  /** The call that fails is the one that would write the row of a checkpoint, or
      the snapshot for it. */
  ghost predicate RowFails(rules: Rules, v: View, fault: Option<Fault>, rescan: Rescan, polls: seq<Poll>) {
    !v.shadowed && Outlasts(fault, ReadyCalls(v.state, rescan)) &&
    RowFailsReady(rules, Readied(rules, v, rescan), Spend(fault, ReadyCalls(v.state, rescan)), polls)
  }

  /** The same once the pipeline is ready. */
  ghost predicate RowFailsReady(rules: Rules, v: View, fault: Option<Fault>, polls: seq<Poll>) {
    !Breaks(rules, polls) && Outlasts(fault, DrainCalls(rules, polls)) &&
    !Outlasts(Spend(fault, DrainCalls(rules, polls)), if Worth(rules, v, polls) then 2 else 1)
  }

  // -------------------------------------------------------------------------
  // What a request leaves out of sight
  // -------------------------------------------------------------------------

  /** The part of the pipeline that a noop row speaks about. */
  datatype View = View(checkout: Tree, generation: Tree, marker: Option<Tree>, state: State, shadowed: bool)

  /** Something captured is out of sight: it differs from the last generation,
      and no marker names that. */
  predicate Lost(v: View) {
    v.state == Ready && v.checkout != v.generation && v.marker != Some(v.generation)
  }

  /** After a full rescan. */
  function Rebuilt(rules: Rules, v: View, rescan: Rescan): View {
    v.(checkout := WithTail(rules, rescan), generation := Rescanned(rules, rescan), state := Ready)
  }

  /** After the rescan that a pipeline needs when it is not ready. */
  function Readied(rules: Rules, v: View, rescan: Rescan): View {
    if v.state == Ready then v else Rebuilt(rules, v, rescan)
  }

  /** With what these answers hold captured. */
  ghost function Captures(rules: Rules, v: View, polls: seq<Poll>): View {
    v.(checkout := Drained(rules, v.checkout, polls))
  }

  /** After the safety row of a restore, or after finding that none is needed. */
  ghost function Secured(rules: Rules, v: View, polls: seq<Poll>): View {
    var c := Drained(rules, v.checkout, polls);
    var worth := FindsNews(rules, polls) || v.marker == Some(v.generation);
    v.(checkout := c, generation := if worth then c else v.generation, marker := None)
  }

  /** A checkpoint does when the watcher breaks under it, or has no news. */
  ghost predicate HidesReady(rules: Rules, v: View, polls: seq<Poll>) {
    (Breaks(rules, polls) || !FindsNews(rules, polls)) && Lost(Captures(rules, v, polls))
  }

  ghost predicate HidesCheckpoint(rules: Rules, v: View, rescan: Rescan, polls: seq<Poll>) {
    !v.shadowed && HidesReady(rules, Readied(rules, v, rescan), polls)
  }

  /** Something that drains and then snapshots does when the watcher breaks. */
  ghost predicate HidesDrain(rules: Rules, v: View, polls: seq<Poll>) {
    Breaks(rules, polls) && Lost(Captures(rules, v, polls))
  }

  /** A restore does when the watcher breaks before the safety row or after the
      writes, or when a write fails over something that was lost already. */
  ghost predicate HidesRestore(rules: Rules, v: View, paths: seq<Path>, safety: bool, rescan: Rescan, before: seq<Poll>,
                               written: Option<Tree>, leaves: bool, after: seq<Poll>) {
    !v.shadowed && !SomeExcluded(rules, paths) &&
    var ready := Readied(rules, v, rescan);
    if safety && Breaks(rules, before) then Lost(Captures(rules, ready, before))
    else
      var secured := if safety then Secured(rules, ready, before) else ready;
      if written == None then Lost(secured) else !leaves && HidesDrain(rules, secured, after)
  }

  /** What a request taken in state `v`, with `head` published and every engine
      call working, leaves out of sight. */
  ghost predicate Hides(rules: Rules, request: Request, v: View, head: Tree) {
    match request
    case Checkpoint(_, rescan, polls) => HidesCheckpoint(rules, v, rescan, polls)
    case RestorePaths(paths, safety, rescan, before, written, leaves, after) =>
      HidesRestore(rules, v, paths, safety, rescan, before, written, leaves, after)
    case PublishHead(polls) => HidesDrain(rules, v, polls)
    case Fork(polls) => HidesDrain(rules, v, polls)
    case ResolveSession(polls) => !v.shadowed && HidesDrain(rules, v, polls)
    case Rewind(polls, rescan, _) => !Breaks(rules, polls) && Lost(Rebuilt(rules, v, rescan))
    case ApplySession(_, base, rescan, _) =>
      Lost(if head == base then Rebuilt(rules, v, rescan) else v.(checkout := head, state := Ready))
    case Promote(_, base, pending, polls, rescan, _) =>
      if Breaks(rules, polls) then Lost(Captures(rules, v, polls))
      else pending && Drained(rules, v.checkout, polls) == base && Lost(Rebuilt(rules, v, rescan))
    case _ => false
  }

  /** A request that itself writes a noop row over something lost. */
  ghost predicate WritesHidden(rules: Rules, request: Request, v: View) {
    request.Checkpoint? && !v.shadowed && Quiet(rules, request.polls) && Lost(Readied(rules, v, request.rescan))
  }

  /** The watcher has nothing to say and does not break. */
  ghost predicate Quiet(rules: Rules, polls: seq<Poll>) {
    !FindsNews(rules, polls) && !Breaks(rules, polls)
  }

  lemma QuietChangesNothing(rules: Rules, c: Tree, polls: seq<Poll>)
    requires Quiet(rules, polls)
    ensures Drained(rules, c, polls) == c
    decreases |polls|
  {
    if polls != [] {
      NothingTaken(rules, c, polls[0].live, polls[0].changes);
      if !Ends(rules, polls[0]) {
        QuietChangesNothing(rules, c, polls[1..]);
      }
    }
  }

  // -------------------------------------------------------------------------
  // The timeline
  // -------------------------------------------------------------------------

  /** A noop row claims that the checkout is still the generation it names. */
  predicate Honest(row: Row) {
    row.kind == Noop && !row.shadowed ==> row.generation == row.checkout
  }

  ghost predicate HonestFrom(rows: seq<Row>, from: nat) {
    forall i :: from <= i < |rows| ==> Honest(rows[i])
  }

  /** Rows were only added, and none of the new ones hides anything. */
  ghost predicate Extends(rows: seq<Row>, more: seq<Row>) {
    rows <= more && HonestFrom(more, |rows|)
  }

  /** The generation of the last row of the pipeline's own. */
  ghost function LastOwn(rows: seq<Row>): Option<Tree> {
    if rows == [] then None
    else
      var last := rows[|rows| - 1];
      if last.own then Some(last.generation) else LastOwn(rows[..|rows| - 1])
  }

  /** An automatic row always differs from the own row before it. */
  ghost predicate AutoRowsAreNews(rows: seq<Row>) {
    forall i :: 0 <= i < |rows| && rows[i].kind == Auto ==>
      LastOwn(rows[..i]).Some? && LastOwn(rows[..i]) != Some(rows[i].generation)
  }

  lemma OneMoreRow(rows: seq<Row>, row: Row)
    requires AutoRowsAreNews(rows)
    requires row.kind == Auto ==> LastOwn(rows).Some? && LastOwn(rows) != Some(row.generation)
    ensures AutoRowsAreNews(rows + [row])
    ensures LastOwn(rows + [row]) == if row.own then Some(row.generation) else LastOwn(rows)
  {
    var more := rows + [row];
    assert more[..|rows|] == rows;
    forall i | 0 <= i < |more| && more[i].kind == Auto
      ensures LastOwn(more[..i]).Some? && LastOwn(more[..i]) != Some(more[i].generation)
    {
      if i < |rows| {
        assert more[..i] == rows[..i];
      }
    }
  }

  /** No excluded path is in any recorded generation. */
  ghost predicate RowsAreClean(rows: seq<Row>, rules: Rules) {
    forall i :: 0 <= i < |rows| ==> IsClean(rows[i].generation, rules)
  }

  /** The directories the paths are in, the root apart, each once and in order. */
  function ParentsOf(paths: seq<Path>): (parents: seq<Path>)
    ensures Ascending(parents)
  {
    if paths == [] then []
    else
      var k := |paths| - 1;
      var before := ParentsOf(paths[..k]);
      if |paths[k]| > 1 then Insert(before, paths[k][..|paths[k]| - 1]) else before
  }

  /** What a restore tells the capture: each path it wrote, and that the
      directories they are in changed. */
  function WrittenHints(paths: seq<Path>): (hints: seq<WatchChange>)
    ensures |hints| >= |paths| && forall i :: 0 <= i < |paths| ==> hints[i] == Modified(paths[i])
  {
    var parents := ParentsOf(paths);
    seq(|paths|, i requires 0 <= i < |paths| => Modified(paths[i])) +
    seq(|parents|, i requires 0 <= i < |parents| => MetadataChanged(parents[i]))
  }

  // -------------------------------------------------------------------------
  // What each request does
  // -------------------------------------------------------------------------

  /** The pipeline between two requests: what its noop rows speak about, what was
      last published and how many rows since, the timeline, and the recorded
      generations that were handed in. */
  datatype Status = Status(view: View, head: Tree, sinceCommit: nat, rows: seq<Row>, guests: set<Tree>)

  function Published(s: Status): Status {
    s.(head := s.view.checkout, sinceCommit := 0)
  }

  function Holding(s: Status, checkout: Tree): Status {
    s.(view := s.view.(checkout := checkout))
  }

  function Marked(s: Status, marker: Option<Tree>): Status {
    s.(view := s.view.(marker := marker))
  }

  /** With one more row, which becomes the last generation. */
  function Noted(s: Status, generation: Tree, kind: Kind): Status {
    s.(view := s.view.(generation := generation),
       rows := s.rows + [Row(generation, kind, s.view.checkout, s.view.shadowed, true)])
  }

  /** The checkout recorded. */
  function Snapped(s: Status, kind: Kind): Status {
    Noted(s, s.view.checkout, kind)
  }

  /** A generation that was handed in recorded. */
  function Hosted(s: Status, generation: Tree, kind: Kind, own: bool): Status {
    s.(view := if own then s.view.(generation := generation) else s.view,
       rows := s.rows + [Row(generation, kind, s.view.checkout, s.view.shadowed, own)],
       guests := s.guests + {generation})
  }

  function Tallied(s: Status): Status {
    s.(sinceCommit := s.sinceCommit + 1)
  }

  /** One row more since the last publish, which is made when enough gathered. */
  function Counted(cfg: Config, s: Status): Status {
    if s.sinceCommit + 1 >= cfg.commitEvery then Published(s) else Tallied(s)
  }

  /** A marker against an earlier generation is dropped. */
  function Remarked(s: Status): Status {
    if s.view.marker == Some(s.view.generation) then s else Marked(s, None)
  }

  /** After a fresh watcher and a full rescan: published, recorded, the changes
      that raced it captured, and published again. */
  function Anew(rules: Rules, s: Status, kind: Kind, rescan: Rescan): Status {
    var scanned := Snapped(Holding(Published(s), Rescanned(rules, rescan)), kind);
    var folded := Published(Holding(scanned, WithTail(rules, rescan)));
    folded.(view := folded.view.(state := Ready))
  }

  function Prepared(rules: Rules, s: Status, rescan: Rescan): Status {
    if s.view.state == Ready then s else Anew(rules, s, Recovered, rescan)
  }

  ghost function Polled(rules: Rules, s: Status, poll: Poll): Status {
    if poll.Broken? then s
    else if Rebuilds(poll) then Anew(rules, s, Recovered, poll.rescan)
    else Holding(s, Taken(rules, s.view.checkout, poll.live, poll.changes))
  }

  /** After a drain that reads these answers. */
  ghost function Reading(rules: Rules, s: Status, polls: seq<Poll>): Status
    decreases |polls|
  {
    if polls == [] then s
    else
      var next := Polled(rules, s, polls[0]);
      if Ends(rules, polls[0]) then next else Reading(rules, next, polls[1..])
  }

  /** There is something to record: news, or what a marker stands for. */
  ghost predicate Worth(rules: Rules, v: View, polls: seq<Poll>) {
    FindsNews(rules, polls) || v.marker == Some(v.generation)
  }

  /** What a checkpoint has drained when it comes to write its row. */
  ghost function BeforeRow(rules: Rules, s: Status, rescan: Rescan, polls: seq<Poll>): Status {
    Reading(rules, Remarked(Prepared(rules, s, rescan)), polls)
  }

  ghost function AfterCheckpoint(cfg: Config, s: Status, kind: Kind, rescan: Rescan, polls: seq<Poll>): Status {
    if s.view.shadowed then Noted(s, s.view.generation, Noop)
    else AfterReady(cfg, Prepared(cfg.rules, s, rescan), kind, polls)
  }

  /** The same once the pipeline is ready. */
  ghost function AfterReady(cfg: Config, s: Status, kind: Kind, polls: seq<Poll>): Status {
    var read := Reading(cfg.rules, Remarked(s), polls);
    if Breaks(cfg.rules, polls) then Noted(read, read.view.generation, Failed)
    else if Worth(cfg.rules, s.view, polls) then Counted(cfg, Marked(Snapped(read, kind), None))
    else Counted(cfg, Noted(read, read.view.generation, Noop))
  }

  /** A drain, and then a row whatever it found. */
  ghost function Recording(rules: Rules, s: Status, kind: Kind, polls: seq<Poll>): Status {
    var read := Reading(rules, s, polls);
    if Breaks(rules, polls) then read else Snapped(read, kind)
  }

  ghost function AfterHead(rules: Rules, s: Status, polls: seq<Poll>): Status {
    if s.view.state != Ready then s
    else if Breaks(rules, polls) then Reading(rules, s, polls)
    else Tallied(Recording(rules, s, Manual, polls))
  }

  /** After the safety row of a restore, if there was something to lose. */
  ghost function AfterSafety(rules: Rules, s: Status, polls: seq<Poll>): Status {
    var read := Reading(rules, Remarked(s), polls);
    if Breaks(rules, polls) || !Worth(rules, s.view, polls) then read else Marked(Snapped(read, Manual), None)
  }

  /** After the writes of a restore. */
  ghost function AfterWrites(rules: Rules, s: Status, paths: seq<Path>, live: Tree, leaves: bool,
      after: seq<Poll>): Status {
    if leaves then
      Tallied(Snapped(Holding(s, Scrubbed(Captured(s.view.checkout, live, WrittenHints(paths)), rules)), Manual))
    else if Breaks(rules, after) then Reading(rules, s, after)
    else Tallied(Recording(rules, s, Manual, after))
  }

  ghost function AfterRestore(rules: Rules, s: Status, paths: seq<Path>, safety: bool, rescan: Rescan,
      before: seq<Poll>, written: Option<Tree>, leaves: bool, after: seq<Poll>): Status {
    var ready := Prepared(rules, s, rescan);
    var safe := if safety then AfterSafety(rules, ready, before) else ready;
    if s.view.shadowed || SomeExcluded(rules, paths) then s
    else if (safety && Breaks(rules, before)) || written == None then safe
    else AfterWrites(rules, safe, paths, written.value, leaves, after)
  }

  ghost function AfterRewind(rules: Rules, s: Status, polls: seq<Poll>, rescan: Rescan): Status {
    var safe := Recording(rules, s.(view := s.view.(state := Rewinding)), PreRewind, polls);
    if Breaks(rules, polls) then safe else Anew(rules, Published(safe), Recovered, rescan)
  }

  ghost function AfterResolve(rules: Rules, s: Status, polls: seq<Poll>): Status {
    if s.view.shadowed then Snapped(s.(view := s.view.(shadowed := false, state := Ready)), PreRewind)
    else Recording(rules, s, PreRewind, polls)
  }

  /** A generation takes the place of the checkout, is recorded, and lands. */
  function AfterLanding(rules: Rules, s: Status, generation: Tree, rescan: Rescan): Status {
    Anew(rules, Hosted(s, generation, Manual, true), Recovered, rescan)
  }

  function AfterApply(rules: Rules, s: Status, generation: Tree, base: Tree, rescan: Rescan): Status {
    var back := Holding(s, s.head);
    if s.head == base then AfterLanding(rules, back, generation, rescan)
    else back.(view := back.view.(state := Ready))
  }

  ghost function AfterPromote(rules: Rules, s: Status, generation: Tree, base: Tree, pending: bool,
      polls: seq<Poll>, rescan: Rescan): Status {
    if Breaks(rules, polls) then Reading(rules, s, polls)
    else AfterOverlay(rules, Published(Recording(rules, s, PreRewind, polls)), generation, base, pending, rescan)
  }

  /** An overlay with something pending becomes what is published and lands, unless
      something else was published since its base. */
  function AfterOverlay(rules: Rules, s: Status, generation: Tree, base: Tree, pending: bool, rescan: Rescan): Status {
    if !pending || s.head != base then s
    else AfterLanding(rules, Published(Holding(s, generation)), generation, rescan)
  }

  /** What an idle tick captured, marked. */
  ghost function AfterMarking(rules: Rules, s: Status, polls: seq<Poll>): Status {
    var read := Reading(rules, s, polls);
    if Breaks(rules, polls) || FindsNews(rules, polls) then Marked(read, Some(read.view.generation)) else read
  }

  /** The row for what is marked. */
  function AfterQuiet(cfg: Config, s: Status, quietLongEnough: bool): Status {
    if s.view.marker != Some(s.view.generation) then Marked(s, None)
    else if !quietLongEnough then s
    else if s.view.checkout == s.view.generation then Marked(s, None)
    else Counted(cfg, Marked(Snapped(s, Auto), None))
  }

  ghost function AfterAuto(cfg: Config, s: Status, polls: seq<Poll>, quietLongEnough: bool): Status {
    var marked := AfterMarking(cfg.rules, s, polls);
    if !cfg.autoEnabled || s.view.shadowed || s.view.state != Ready then s
    else if Breaks(cfg.rules, polls) then marked
    else AfterQuiet(cfg, marked, quietLongEnough)
  }

  ghost function AfterTick(cfg: Config, s: Status, commitIdle: bool, polls: seq<Poll>, quietLongEnough: bool): Status {
    AfterAuto(cfg, if s.view.state == Ready && s.sinceCommit > 0 && commitIdle then Published(s) else s, polls,
              quietLongEnough)
  }

  /** What a request does when every engine call works. */
  ghost function Served(cfg: Config, request: Request, s: Status): Status {
    match request
    case Checkpoint(kind, rescan, polls) => AfterCheckpoint(cfg, s, kind, rescan, polls)
    case Commit => Published(s)
    case RestorePaths(paths, safety, rescan, before, written, leaves, after) =>
      AfterRestore(cfg.rules, s, paths, safety, rescan, before, written, leaves, after)
    case PublishHead(polls) => AfterHead(cfg.rules, s, polls)
    case Fork(polls) => AfterHead(cfg.rules, s, polls)
    case Rewind(polls, rescan, _) => AfterRewind(cfg.rules, s, polls, rescan)
    case SetShadowed(active) => s.(view := s.view.(shadowed := active))
    case ResolveSession(polls) => AfterResolve(cfg.rules, s, polls)
    case ApplySession(generation, base, rescan, _) => AfterApply(cfg.rules, s, generation, base, rescan)
    case Promote(generation, base, pending, polls, rescan, _) =>
      AfterPromote(cfg.rules, s, generation, base, pending, polls, rescan)
    case RecordGeneration(generation, kind) => Hosted(s, generation, kind, false)
    case Tick(commitIdle, polls, quietLongEnough) => AfterTick(cfg, s, commitIdle, polls, quietLongEnough)
  }

  /** A started pipeline. */
  function Started(rules: Rules, first: Rescan): Status {
    var scanned := Rescanned(rules, first);
    Status(View(WithTail(rules, first), scanned, None, Ready, false), WithTail(rules, first), 0,
           [Row(scanned, Baseline, scanned, false, true)], {})
  }

  // -------------------------------------------------------------------------
  // What that leaves out of sight
  // -------------------------------------------------------------------------

  lemma {:induction false} ReadingLeaves(rules: Rules, s: Status, polls: seq<Poll>)
    ensures var r := Reading(rules, s, polls);
            r.view.checkout == Drained(rules, s.view.checkout, polls) && r.view.marker == s.view.marker &&
            r.view.shadowed == s.view.shadowed && r.guests == s.guests &&
            (r.view.state == s.view.state || r.view.state == Ready) &&
            Extends(s.rows, r.rows) &&
            (Breaks(rules, polls) ==> r == Holding(s, Drained(rules, s.view.checkout, polls))) &&
            (!FindsNews(rules, polls) ==> r == s)
    decreases |polls|
  {
    if polls != [] {
      if !IsNews(rules, polls[0]) && !polls[0].Broken? {
        NothingTaken(rules, s.view.checkout, polls[0].live, polls[0].changes);
      }
      if !Ends(rules, polls[0]) {
        ReadingLeaves(rules, Polled(rules, s, polls[0]), polls[1..]);
      }
    }
  }

  lemma OneMoreHonest(s: Status, generation: Tree, kind: Kind)
    ensures Extends(s.rows, Noted(s, generation, kind).rows) <==>
            kind == Noop && !s.view.shadowed ==> generation == s.view.checkout
  {
    var more := Noted(s, generation, kind).rows;
    assert more[|s.rows|] == Row(generation, kind, s.view.checkout, s.view.shadowed, true);
  }

  /** A rescan adds one row, with nothing to hide. */
  lemma AnewLeaves(rules: Rules, s: Status, kind: Kind, rescan: Rescan)
    requires kind != Noop
    ensures Anew(rules, s, kind, rescan).view == Rebuilt(rules, s.view, rescan)
    ensures Extends(s.rows, Anew(rules, s, kind, rescan).rows)
  {}

  lemma ExtendsOn(rows: seq<Row>, some: seq<Row>, more: seq<Row>)
    requires Extends(rows, some) && Extends(some, more)
    ensures Extends(rows, more)
  {
    HonestInParts(rows, some, more);
  }

  lemma HonestInParts(rows: seq<Row>, some: seq<Row>, more: seq<Row>)
    requires rows <= some <= more
    ensures HonestFrom(more, |rows|) <==> HonestFrom(some, |rows|) && HonestFrom(more, |some|)
  {
    if HonestFrom(more, |rows|) {
      forall i | |rows| <= i < |some| ensures Honest(some[i]) {
        assert more[i] == some[i];
      }
    }
    if HonestFrom(some, |rows|) && HonestFrom(more, |some|) {
      forall i | |rows| <= i < |more| ensures Honest(more[i]) {
        if i < |some| {
          assert more[i] == some[i];
        }
      }
    }
  }

  /** A pipeline that is ready, before the row of a checkpoint. */
  lemma DrainHides(rules: Rules, s: Status, polls: seq<Poll>)
    requires s.view.state == Ready
    ensures var read := Reading(rules, Remarked(s), polls).view;
            if Breaks(rules, polls) then Lost(read) <==> Lost(Captures(rules, s.view, polls))
            else if Worth(rules, s.view, polls) then read.state == Ready && !HidesReady(rules, s.view, polls)
            else Lost(read) <==> HidesReady(rules, s.view, polls)
  {
    ReadingLeaves(rules, Remarked(s), polls);
  }

  /** What a checkpoint leaves out of sight. */
  lemma CheckpointHides(cfg: Config, s: Status, kind: Kind, rescan: Rescan, polls: seq<Poll>)
    requires kind != Noop && !Lost(s.view)
    ensures Lost(AfterCheckpoint(cfg, s, kind, rescan, polls).view) <==>
            HidesCheckpoint(cfg.rules, s.view, rescan, polls)
  {
    var ready := Prepared(cfg.rules, s, rescan);
    AnewLeaves(cfg.rules, s, Recovered, rescan);
    DrainHides(cfg.rules, ready, polls);
    RowLeaves(cfg, s, kind, rescan, polls);
  }

  lemma RowLeaves(cfg: Config, s: Status, kind: Kind, rescan: Rescan, polls: seq<Poll>)
    ensures var read := BeforeRow(cfg.rules, s, rescan, polls).view;
            var after := AfterCheckpoint(cfg, s, kind, rescan, polls).view;
            if s.view.shadowed then after == s.view
            else if !Breaks(cfg.rules, polls) && Worth(cfg.rules, Prepared(cfg.rules, s, rescan).view, polls) then
              after.checkout == after.generation
            else after == read
    ensures AfterCheckpoint(cfg, s, kind, rescan, polls).view.shadowed ==
            if s.view.shadowed then true else BeforeRow(cfg.rules, s, rescan, polls).view.shadowed
  {}

  /** When a row of it hides something. */
  lemma CheckpointWrites(cfg: Config, s: Status, kind: Kind, rescan: Rescan, polls: seq<Poll>)
    requires kind != Noop
    ensures s.rows <= AfterCheckpoint(cfg, s, kind, rescan, polls).rows
    ensures HonestFrom(AfterCheckpoint(cfg, s, kind, rescan, polls).rows, |s.rows|) <==>
            !(!s.view.shadowed && Quiet(cfg.rules, polls) && Lost(Readied(cfg.rules, s.view, rescan)))
  {
    var rules, ready := cfg.rules, Prepared(cfg.rules, s, rescan);
    var read := BeforeRow(rules, s, rescan, polls);
    if s.view.shadowed {
      OneMoreHonest(s, s.view.generation, Noop);
    } else {
      AnewLeaves(rules, s, Recovered, rescan);
      ReadingLeaves(rules, Remarked(ready), polls);
      ExtendsOn(s.rows, ready.rows, read.rows);
      var generation, row := RowOf(rules, s, kind, rescan, polls);
      OneMoreHonest(read, generation, row);
      HonestInParts(s.rows, read.rows, Noted(read, generation, row).rows);
    }
  }

  /** The generation and the kind of the row that a checkpoint writes. */
  lemma RowOf(rules: Rules, s: Status, kind: Kind, rescan: Rescan, polls: seq<Poll>)
    returns (generation: Tree, row: Kind)
    requires kind != Noop && !s.view.shadowed
    ensures forall cfg: Config :: cfg.rules == rules ==>
      AfterCheckpoint(cfg, s, kind, rescan, polls).rows ==
        Noted(BeforeRow(rules, s, rescan, polls), generation, row).rows
    ensures var read := BeforeRow(rules, s, rescan, polls);
            (row == Noop <==> !Breaks(rules, polls) && !Worth(rules, Prepared(rules, s, rescan).view, polls)) &&
            generation == if row == Noop || Breaks(rules, polls) then read.view.generation else read.view.checkout
  {
    var read := BeforeRow(rules, s, rescan, polls);
    if Breaks(rules, polls) {
      generation, row := read.view.generation, Failed;
    } else if Worth(rules, Prepared(rules, s, rescan).view, polls) {
      generation, row := read.view.checkout, kind;
    } else {
      generation, row := read.view.generation, Noop;
    }
  }

  lemma RecordingLeaves(rules: Rules, s: Status, kind: Kind, polls: seq<Poll>)
    requires kind != Noop
    ensures var r := Recording(rules, s, kind, polls);
            Extends(s.rows, r.rows) && r.view.shadowed == s.view.shadowed &&
            (Breaks(rules, polls) ==> r.view == Captures(rules, s.view, polls)) &&
            (!Breaks(rules, polls) ==> r.view.checkout == r.view.generation == Drained(rules, s.view.checkout, polls))
  {
    ReadingLeaves(rules, s, polls);
  }

  lemma SafetyLeaves(rules: Rules, s: Status, polls: seq<Poll>)
    requires s.view.state == Ready
    ensures var r := AfterSafety(rules, s, polls);
            Extends(s.rows, r.rows) && r.view.state == Ready && r.view.shadowed == s.view.shadowed &&
            if Breaks(rules, polls) then Lost(r.view) <==> Lost(Captures(rules, s.view, polls))
            else r.view == Secured(rules, s.view, polls)
  {
    ReadingLeaves(rules, Remarked(s), polls);
  }

  lemma WritesLeave(rules: Rules, s: Status, paths: seq<Path>, live: Tree, leaves: bool, after: seq<Poll>)
    ensures var r := AfterWrites(rules, s, paths, live, leaves, after);
            Extends(s.rows, r.rows) && r.view.shadowed == s.view.shadowed &&
            (Lost(r.view) <==> !leaves && HidesDrain(rules, s.view, after))
  {
    RecordingLeaves(rules, s, Manual, after);
  }

  lemma RestoreHides(rules: Rules, s: Status, paths: seq<Path>, safety: bool, rescan: Rescan, before: seq<Poll>,
      written: Option<Tree>, leaves: bool, after: seq<Poll>)
    ensures var r := AfterRestore(rules, s, paths, safety, rescan, before, written, leaves, after);
            Extends(s.rows, r.rows) && r.view.shadowed == s.view.shadowed &&
            (!Lost(s.view) ==>
             (Lost(r.view) <==> HidesRestore(rules, s.view, paths, safety, rescan, before, written, leaves, after)))
  {
    var ready := Prepared(rules, s, rescan);
    var safe := if safety then AfterSafety(rules, ready, before) else ready;
    AnewLeaves(rules, s, Recovered, rescan);
    SafetyLeaves(rules, ready, before);
    ExtendsOn(s.rows, ready.rows, safe.rows);
    if written.Some? {
      WritesLeave(rules, safe, paths, written.value, leaves, after);
      ExtendsOn(s.rows, safe.rows, AfterWrites(rules, safe, paths, written.value, leaves, after).rows);
    }
  }

  lemma RewindLeaves(rules: Rules, s: Status, polls: seq<Poll>, rescan: Rescan)
    ensures var r := AfterRewind(rules, s, polls, rescan);
            Extends(s.rows, r.rows) && r.view.shadowed == s.view.shadowed &&
            if Breaks(rules, polls) then r.view.state == Rewinding
            else r.view == Rebuilt(rules, s.view, rescan)
  {
    var started := s.(view := s.view.(state := Rewinding));
    var safe := Recording(rules, started, PreRewind, polls);
    ReadingLeaves(rules, started, polls);
    RecordingLeaves(rules, started, PreRewind, polls);
    AnewLeaves(rules, Published(safe), Recovered, rescan);
    ExtendsOn(s.rows, safe.rows, AfterRewind(rules, s, polls, rescan).rows);
  }

  lemma ResolveLeaves(rules: Rules, s: Status, polls: seq<Poll>)
    ensures var r := AfterResolve(rules, s, polls);
            Extends(s.rows, r.rows) && !r.view.shadowed &&
            if s.view.shadowed || !Breaks(rules, polls) then r.view.checkout == r.view.generation
            else r.view == Captures(rules, s.view, polls)
  {
    RecordingLeaves(rules, s, PreRewind, polls);
  }

  lemma LandingLeaves(rules: Rules, s: Status, generation: Tree, rescan: Rescan)
    ensures var r := AfterLanding(rules, s, generation, rescan);
            Extends(s.rows, r.rows) && r.view == Rebuilt(rules, s.view, rescan)
  {
    var hosted := Hosted(s, generation, Manual, true);
    AnewLeaves(rules, hosted, Recovered, rescan);
    assert Extends(s.rows, hosted.rows);
    ExtendsOn(s.rows, hosted.rows, AfterLanding(rules, s, generation, rescan).rows);
  }

  lemma PromoteLeaves(rules: Rules, s: Status, generation: Tree, base: Tree, pending: bool, polls: seq<Poll>,
      rescan: Rescan)
    ensures var r := AfterPromote(rules, s, generation, base, pending, polls, rescan);
            Extends(s.rows, r.rows) && r.view.shadowed == s.view.shadowed &&
            if Breaks(rules, polls) then r.view == Captures(rules, s.view, polls)
            else if pending && Drained(rules, s.view.checkout, polls) == base then
              r.view == Rebuilt(rules, s.view, rescan)
            else r.view.checkout == r.view.generation
  {
    var safe := Published(Recording(rules, s, PreRewind, polls));
    ReadingLeaves(rules, s, polls);
    RecordingLeaves(rules, s, PreRewind, polls);
    LandingLeaves(rules, Published(Holding(safe.(head := generation), generation)), generation, rescan);
    ExtendsOn(s.rows, safe.rows, AfterPromote(rules, s, generation, base, pending, polls, rescan).rows);
  }

  lemma MarkingLeaves(rules: Rules, s: Status, polls: seq<Poll>)
    ensures var r := AfterMarking(rules, s, polls);
            Extends(s.rows, r.rows) && r.view.shadowed == s.view.shadowed && (!Lost(s.view) ==> !Lost(r.view))
  {
    ReadingLeaves(rules, s, polls);
  }

  lemma QuietLeaves(cfg: Config, s: Status, quietLongEnough: bool)
    ensures var r := AfterQuiet(cfg, s, quietLongEnough);
            Extends(s.rows, r.rows) && r.view.shadowed == s.view.shadowed && (!Lost(s.view) ==> !Lost(r.view))
    ensures !Lost(s.view) && s.view.state == Ready && quietLongEnough ==>
      var v := AfterQuiet(cfg, s, quietLongEnough).view; v.generation == v.checkout
  {}

  /** A tick keeps everything captured in sight. */
  lemma TickLeaves(cfg: Config, s: Status, commitIdle: bool, polls: seq<Poll>, quietLongEnough: bool)
    ensures var r := AfterTick(cfg, s, commitIdle, polls, quietLongEnough);
            Extends(s.rows, r.rows) && r.view.shadowed == s.view.shadowed && (!Lost(s.view) ==> !Lost(r.view))
  {
    var idle := if s.view.state == Ready && s.sinceCommit > 0 && commitIdle then Published(s) else s;
    var marked := AfterMarking(cfg.rules, idle, polls);
    MarkingLeaves(cfg.rules, idle, polls);
    QuietLeaves(cfg, marked, quietLongEnough);
    ExtendsOn(s.rows, marked.rows, AfterQuiet(cfg, marked, quietLongEnough).rows);
  }

  /** A quiet one records it. */
  lemma QuietTickRecords(cfg: Config, s: Status, commitIdle: bool, polls: seq<Poll>, quietLongEnough: bool)
    requires !Lost(s.view) && cfg.autoEnabled && !s.view.shadowed && s.view.state == Ready && quietLongEnough &&
             !Breaks(cfg.rules, polls)
    ensures var v := AfterTick(cfg, s, commitIdle, polls, quietLongEnough).view;
      v.generation == v.checkout == Drained(cfg.rules, s.view.checkout, polls)
  {
    var idle := if s.view.state == Ready && s.sinceCommit > 0 && commitIdle then Published(s) else s;
    var marked := AfterMarking(cfg.rules, idle, polls);
    ReadingLeaves(cfg.rules, idle, polls);
    MarkingLeaves(cfg.rules, idle, polls);
    QuietLeaves(cfg, marked, quietLongEnough);
  }

  /** With no failing call, from a state in which nothing is lost, a request
      leaves something out of sight exactly when it is one that hides. */
  lemma ServedHides(cfg: Config, request: Request, s: Status)
    requires !Lost(s.view)
    ensures Lost(Served(cfg, request, s).view) <==> Hides(cfg.rules, request, s.view, s.head)
  {
    match request
    case Checkpoint(kind, rescan, polls) => CheckpointHides(cfg, s, kind, rescan, polls);
    case RestorePaths(paths, safety, rescan, before, written, leaves, after) =>
      RestoreHides(cfg.rules, s, paths, safety, rescan, before, written, leaves, after);
    case PublishHead(polls) => RecordingLeaves(cfg.rules, s, Manual, polls);
    case Fork(polls) => RecordingLeaves(cfg.rules, s, Manual, polls);
    case Rewind(polls, rescan, _) => RewindLeaves(cfg.rules, s, polls, rescan);
    case ResolveSession(polls) => ResolveLeaves(cfg.rules, s, polls);
    case ApplySession(generation, _, rescan, _) =>
      LandingLeaves(cfg.rules, Holding(s, s.head), generation, rescan);
    case Promote(generation, base, pending, polls, rescan, _) =>
      PromoteLeaves(cfg.rules, s, generation, base, pending, polls, rescan);
    case Tick(commitIdle, polls, quietLongEnough) => TickLeaves(cfg, s, commitIdle, polls, quietLongEnough);
    case _ =>
  }

  /** In any state: rows are only added, and one of the new ones hides captured
      work exactly when the request is a quiet checkpoint that finds some lost. */
  lemma ServedWrites(cfg: Config, request: Request, s: Status)
    ensures s.rows <= Served(cfg, request, s).rows
    ensures HonestFrom(Served(cfg, request, s).rows, |s.rows|) <==> !WritesHidden(cfg.rules, request, s.view)
  {
    match request
    case Checkpoint(kind, rescan, polls) => CheckpointWrites(cfg, s, kind, rescan, polls);
    case RestorePaths(paths, safety, rescan, before, written, leaves, after) =>
      RestoreHides(cfg.rules, s, paths, safety, rescan, before, written, leaves, after);
    case PublishHead(polls) => RecordingLeaves(cfg.rules, s, Manual, polls);
    case Fork(polls) => RecordingLeaves(cfg.rules, s, Manual, polls);
    case Rewind(polls, rescan, _) => RewindLeaves(cfg.rules, s, polls, rescan);
    case ResolveSession(polls) => ResolveLeaves(cfg.rules, s, polls);
    case ApplySession(generation, _, rescan, _) =>
      LandingLeaves(cfg.rules, Holding(s, s.head), generation, rescan);
    case Promote(generation, base, pending, polls, rescan, _) =>
      PromoteLeaves(cfg.rules, s, generation, base, pending, polls, rescan);
    case Tick(commitIdle, polls, quietLongEnough) => TickLeaves(cfg, s, commitIdle, polls, quietLongEnough);
    case _ =>
  }

  lemma {:induction false} HintsAtEach(changes: seq<WatchChange>, i: nat)
    requires i < |changes|
    ensures HintsOf(changes[i]) <= Hints(changes)
  {
    var k := |changes| - 1;
    if i < k {
      HintsAtEach(changes[..k], i);
    }
  }

  lemma WrittenIsCaptured(rules: Rules, paths: seq<Path>, before: Tree, live: Tree)
    requires !SomeExcluded(rules, paths)
    ensures forall i :: 0 <= i < |paths| ==>
              Get(Scrubbed(Captured(before, live, WrittenHints(paths)), rules), paths[i]) == Get(live, paths[i])
  {
    var hints := WrittenHints(paths);
    forall i | 0 <= i < |paths|
      ensures Get(Scrubbed(Captured(before, live, hints), rules), paths[i]) == Get(live, paths[i])
    {
      HintsAtEach(hints, i);
      OverlayAt(before, live, Hints(hints), paths[i]);
      assert Below(paths[i], Hints(hints));
    }
  }

  /** One of the rows before the last holds the tree. */
  ghost predicate OnTimeline(rows: seq<Row>, t: Tree) {
    exists i :: 0 <= i < |rows| - 1 && rows[i].generation == t
  }

  lemma {:induction false} StillOnTimeline(rows: seq<Row>, more: seq<Row>, t: Tree)
    requires rows <= more && |rows| < |more| && LastOwn(rows) == Some(t)
    ensures OnTimeline(more, t)
  {
    var k := |rows| - 1;
    if rows[k].own {
      assert more[k].generation == t;
    } else {
      StillOnTimeline(rows[..k], more, t);
    }
  }

  /** What a restore wrote is in the row it leaves. */
  lemma RestoreRecordsPaths(rules: Rules, s: Status, paths: seq<Path>, live: Tree, after: seq<Poll>)
    requires !SomeExcluded(rules, paths)
    ensures var r := AfterWrites(rules, s, paths, live, true, after);
            r.rows != [] && r.view.generation == LastRow(r).generation &&
            forall i :: 0 <= i < |paths| ==> Get(LastRow(r).generation, paths[i]) == Get(live, paths[i])
  {
    WrittenIsCaptured(rules, paths, s.view.checkout, live);
  }

  /** With the safety row asked for, what a restore overwrote is on the timeline,
      unless it was lost before. */
  lemma RestoreKeepsOverwritten(rules: Rules, s: Status, paths: seq<Path>, rescan: Rescan, before: seq<Poll>,
      live: Tree, leaves: bool, after: seq<Poll>)
    requires !s.view.shadowed && !SomeExcluded(rules, paths) && !Breaks(rules, before) &&
             (leaves || !Breaks(rules, after))
    requires var ready := Prepared(rules, s, rescan);
             !Lost(ready.view) && LastOwn(ready.rows) == Some(ready.view.generation)
    ensures OnTimeline(AfterRestore(rules, s, paths, true, rescan, before, Some(live), leaves, after).rows,
                       Drained(rules, Prepared(rules, s, rescan).view.checkout, before))
  {
    var ready := Prepared(rules, s, rescan);
    var safe := AfterSafety(rules, ready, before);
    var end := AfterWrites(rules, safe, paths, live, leaves, after);
    ReadingLeaves(rules, Remarked(ready), before);
    WritesLeave(rules, safe, paths, live, leaves, after);
    ReadingLeaves(rules, safe, after);
    if Worth(rules, ready.view, before) {
      assert safe.rows[|safe.rows| - 1].generation == safe.view.checkout;
      assert LastOwn(safe.rows) == Some(safe.view.checkout);
    }
    StillOnTimeline(safe.rows, end.rows, Drained(rules, ready.view.checkout, before));
  }

  /** The state before the swap of a rewind is on the timeline. */
  lemma RewindKeepsState(rules: Rules, s: Status, polls: seq<Poll>, rescan: Rescan)
    requires !Breaks(rules, polls)
    ensures OnTimeline(AfterRewind(rules, s, polls, rescan).rows, Drained(rules, s.view.checkout, polls))
  {
    var safe := Recording(rules, s.(view := s.view.(state := Rewinding)), PreRewind, polls);
    ReadingLeaves(rules, s.(view := s.view.(state := Rewinding)), polls);
    assert safe.rows[|safe.rows| - 1].generation == safe.view.checkout;
    assert LastOwn(safe.rows) == Some(safe.view.checkout);
    StillOnTimeline(safe.rows, AfterRewind(rules, s, polls, rescan).rows, safe.view.checkout);
  }

  // -------------------------------------------------------------------------
  // When a noop row does hide something
  // -------------------------------------------------------------------------

  function LastRow(s: Status): Row
    requires s.rows != []
  {
    s.rows[|s.rows| - 1]
  }

  /** A quiet checkpoint, in any state, hides captured work exactly when that is
      lost once the pipeline is ready. */
  lemma QuietCheckpoint(cfg: Config, s: Status, kind: Asked, rescan: Rescan, polls: seq<Poll>)
    requires !s.view.shadowed && Quiet(cfg.rules, polls)
    ensures var t := Served(cfg, Checkpoint(kind, rescan, polls), s);
            t.rows != [] && (!Honest(LastRow(t)) <==> Lost(Readied(cfg.rules, s.view, rescan)))
  {
    var ready := Prepared(cfg.rules, s, rescan);
    AnewLeaves(cfg.rules, s, Recovered, rescan);
    ReadingLeaves(cfg.rules, Remarked(ready), polls);
    var generation, row := RowOf(cfg.rules, s, kind, rescan, polls);
    assert LastRow(Served(cfg, Checkpoint(kind, rescan, polls), s)) ==
      Row(generation, row, ready.view.checkout, false, true);
  }

  /** The first quiet checkpoint after a start hides captured work exactly when a
      change that matters raced the first rescan. */
  lemma FirstQuietCheckpoint(cfg: Config, first: Rescan, kind: Asked, rescan: Rescan, polls: seq<Poll>)
    requires Quiet(cfg.rules, polls)
    ensures var t := Served(cfg, Checkpoint(kind, rescan, polls), Started(cfg.rules, first));
            t.rows != [] &&
            LastRow(t) == Row(Rescanned(cfg.rules, first), Noop, WithTail(cfg.rules, first), false, true) &&
            (!Honest(LastRow(t)) <==> LateNews(cfg.rules, first))
  {
    ReadingLeaves(cfg.rules, Remarked(Started(cfg.rules, first)), polls);
  }

  /** Any request taken in a state in which nothing is lost, and a quiet checkpoint
      after it whose own rescan, should it need one, is not raced: that hides
      captured work exactly when the request left something out of sight. */
  lemma RequestThenQuietCheckpoint(cfg: Config, s: Status, request: Request, kind: Asked, rescan: Rescan,
      quiet: seq<Poll>)
    requires !s.view.shadowed && !Lost(s.view) && Quiet(cfg.rules, quiet) && !LateNews(cfg.rules, rescan)
    ensures var t := Served(cfg, Checkpoint(kind, rescan, quiet), Served(cfg, request, s));
            t.rows != [] && (!Honest(LastRow(t)) <==> Hides(cfg.rules, request, s.view, s.head))
  {
    var served := Served(cfg, request, s);
    ServedHides(cfg, request, s);
    ServedShadows(cfg, request, s);
    if !served.view.shadowed {
      QuietCheckpoint(cfg, served, kind, rescan, quiet);
    }
  }

  lemma ServedShadows(cfg: Config, request: Request, s: Status)
    ensures !s.view.shadowed ==> (Served(cfg, request, s).view.shadowed <==> request == SetShadowed(true))
  {
    match request
    case Checkpoint(kind, rescan, polls) =>
      ReadingLeaves(cfg.rules, Remarked(Prepared(cfg.rules, s, rescan)), polls);
      RowLeaves(cfg, s, kind, rescan, polls);
    case RestorePaths(paths, safety, rescan, before, written, leaves, after) =>
      RestoreHides(cfg.rules, s, paths, safety, rescan, before, written, leaves, after);
    case PublishHead(polls) => RecordingLeaves(cfg.rules, s, Manual, polls);
    case Fork(polls) => RecordingLeaves(cfg.rules, s, Manual, polls);
    case Rewind(polls, rescan, _) => RewindLeaves(cfg.rules, s, polls, rescan);
    case ResolveSession(polls) => ResolveLeaves(cfg.rules, s, polls);
    case Promote(generation, base, pending, polls, rescan, _) =>
      PromoteLeaves(cfg.rules, s, generation, base, pending, polls, rescan);
    case Tick(commitIdle, polls, quietLongEnough) => TickLeaves(cfg, s, commitIdle, polls, quietLongEnough);
    case _ =>
  }

  /** A checkpoint under which the watcher breaks, and a quiet one after it, in
      any state: the second hides captured work exactly when what the first one
      drained differs from the last generation and no marker names that one. */
  lemma BrokenThenQuietCheckpoint(cfg: Config, s: Status, kind: Asked, rescan: Rescan, breaking: seq<Poll>,
      later: Rescan, quiet: seq<Poll>)
    requires !s.view.shadowed && Breaks(cfg.rules, breaking) && Quiet(cfg.rules, quiet)
    ensures var t := Served(cfg, Checkpoint(kind, later, quiet), Served(cfg, Checkpoint(kind, rescan, breaking), s));
            t.rows != [] &&
            (!Honest(LastRow(t)) <==> Lost(Captures(cfg.rules, Readied(cfg.rules, s.view, rescan), breaking)))
  {
    var served := Served(cfg, Checkpoint(kind, rescan, breaking), s);
    AnewLeaves(cfg.rules, s, Recovered, rescan);
    ReadingLeaves(cfg.rules, Remarked(Prepared(cfg.rules, s, rescan)), breaking);
    DrainHides(cfg.rules, Prepared(cfg.rules, s, rescan), breaking);
    QuietCheckpoint(cfg, served, kind, later, quiet);
  }

  /** An apply that finds something published since the session's base, and a
      quiet checkpoint after it, in any state: that hides what was recorded but
      not published, exactly when there is something and no marker names the last
      generation. */
  lemma ConflictingApplyThenQuietCheckpoint(cfg: Config, s: Status, generation: Tree, base: Tree, rescan: Rescan,
      swapped: bool, kind: Asked, later: Rescan, quiet: seq<Poll>)
    requires !s.view.shadowed && s.head != base && Quiet(cfg.rules, quiet)
    ensures var t := Served(cfg, Checkpoint(kind, later, quiet),
                            Served(cfg, ApplySession(generation, base, rescan, swapped), s));
            t.rows != [] &&
            (!Honest(LastRow(t)) <==> s.head != s.view.generation && s.view.marker != Some(s.view.generation))
  {
    QuietCheckpoint(cfg, Served(cfg, ApplySession(generation, base, rescan, swapped), s), kind, later, quiet);
  }

  /** What a checkpoint leaves whose snapshot, or the row for it, fails. */
  ghost function AfterFailedRow(rules: Rules, s: Status, rescan: Rescan, polls: seq<Poll>): Status {
    var read := BeforeRow(rules, s, rescan, polls);
    Noted(read, read.view.generation, Failed)
  }

  /** Such a checkpoint, and a quiet one after it: that hides captured work exactly
      when the drain left some that no marker names. */
  lemma FailedRowThenQuietCheckpoint(cfg: Config, s: Status, kind: Asked, rescan: Rescan, polls: seq<Poll>,
      later: Rescan, quiet: seq<Poll>)
    requires !s.view.shadowed && Quiet(cfg.rules, quiet)
    ensures var t := Served(cfg, Checkpoint(kind, later, quiet), AfterFailedRow(cfg.rules, s, rescan, polls));
            t.rows != [] && (!Honest(LastRow(t)) <==> Lost(BeforeRow(cfg.rules, s, rescan, polls).view))
  {
    ReadingLeaves(cfg.rules, Remarked(Prepared(cfg.rules, s, rescan)), polls);
    QuietCheckpoint(cfg, AfterFailedRow(cfg.rules, s, rescan, polls), kind, later, quiet);
  }

  lemma CreatedFileIsCaptured(changes: seq<WatchChange>, created: Tree)
    requires changes == [Created(["new"])] && created == map[["new"] := Regular("x")]
    ensures Stripped(changes) == changes && !Hinted(changes, Structural)
    ensures HasNews([], changes) && ["new"] in Scrubbed(Captured(map[], created, changes), [])
  {
    OneHint(changes[0]);
    assert changes[..0] == [];
    assert ["new"] in Hints(changes);
    OverlayAt(map[], created, Hints(changes), ["new"]);
    assert Below(["new"], Hints(changes));
  }

  /** Each of them can happen: a file created while the rescan, or the drain,
      ran. */
  lemma HidingHappens(changes: seq<WatchChange>, created: Tree, none: Tree)
    requires changes == [Created(["new"])] && created == map[["new"] := Regular("x")] && none == map[]
    ensures LateNews([], Rescan(none, changes, created)) && Quiet([], [])
    ensures var breaking := [Batch(changes, created, true, Rescan(none, [], none)), Broken];
            Breaks([], breaking) && Drained([], none, breaking) != none
  {
    CreatedFileIsCaptured(changes, created);
    CleanIsScrubbed(none, []);
    var batch := Batch(changes, created, true, Rescan(none, [], none));
    var breaking := [batch, Broken];
    assert breaking[1..] == [Broken];
    assert !Ends([], batch) && Answered([], none, batch) == Scrubbed(Captured(none, created, changes), []);
    assert Drained([], none, breaking) == Answered([], none, batch);
  }

  // -------------------------------------------------------------------------
  // Excluded paths
  // -------------------------------------------------------------------------

  /** Every recorded generation that was not handed in is clean, and each that was
      is recorded. */
  ghost predicate CleanButFor(rows: seq<Row>, rules: Rules, guests: set<Tree>) {
    (forall i :: 0 <= i < |rows| ==> IsClean(rows[i].generation, rules) || rows[i].generation in guests) &&
    (forall g :: g in guests ==> exists i :: 0 <= i < |rows| && rows[i].generation == g)
  }

  lemma OneMoreClean(rows: seq<Row>, rules: Rules, guests: set<Tree>, row: Row, more: set<Tree>)
    requires CleanButFor(rows, rules, guests)
    requires more == guests || more == guests + {row.generation}
    requires IsClean(row.generation, rules) || row.generation in more
    ensures CleanButFor(rows + [row], rules, more)
  {
    var all := rows + [row];
    forall g | g in more ensures exists i :: 0 <= i < |all| && all[i].generation == g {
      if g in guests {
        var i :| 0 <= i < |rows| && rows[i].generation == g;
        assert all[i].generation == g;
      } else {
        assert all[|rows|].generation == g;
      }
    }
  }

  /** The recorded generations are clean exactly when those handed in are. */
  lemma CleanExactlyWhenGuestsAre(rows: seq<Row>, rules: Rules, guests: set<Tree>)
    requires CleanButFor(rows, rules, guests)
    ensures RowsAreClean(rows, rules) <==> forall g :: g in guests ==> IsClean(g, rules)
  {
    if RowsAreClean(rows, rules) {
      forall g | g in guests ensures IsClean(g, rules) {
        var i :| 0 <= i < |rows| && rows[i].generation == g;
      }
    }
  }

  /** A landed session is recorded as it is, in any state: an excluded path that
      was written under the shadow is then in a recorded generation. */
  lemma LandedSessionIsRecorded(cfg: Config, s: Status, generation: Tree, rescan: Rescan, swapped: bool)
    ensures var t := Served(cfg, ApplySession(generation, s.head, rescan, swapped), s);
            |t.rows| > |s.rows| && t.rows[|s.rows|] == Row(generation, Manual, s.head, s.view.shadowed, true)
  {}

  /** Such a generation: a rule for `.env`, and a session that wrote it. */
  lemma SessionMayHoldExcluded(generation: Tree, rules: Rules)
    requires rules == [[".env"]] && generation == map[[".env"] := Regular("key")]
    ensures !IsClean(generation, rules)
  {
    assert [".env"] in generation && StartsWith([".env"], rules[0]);
  }

  /** The drain strips every excluded path: it rescans, or a batch has a hint above
      a rule. */
  ghost predicate Scrubs(rules: Rules, polls: seq<Poll>)
    decreases |polls|
  {
    polls != [] &&
    (Rebuilds(polls[0]) || (polls[0].Batch? && NeedsScrub(rules, polls[0].changes)) ||
     (!Ends(rules, polls[0]) && Scrubs(rules, polls[1..])))
  }

  lemma ReadAboveARule(rules: Rules, changes: seq<WatchChange>, p: Path)
    requires IsExcluded(rules, p) && Below(p, Recordable(rules, changes))
    ensures NeedsScrub(rules, changes)
  {
    var h :| h in Recordable(rules, changes) && StartsWith(p, h);
    var i :| 0 <= i < |rules| && StartsWith(p, rules[i]);
    AncestorsAreComparable(h, rules[i], p);
    assert !StartsWith(h, rules[i]);
    assert IsAncestor(rules, h);
  }

  /** A batch neither brings an excluded path in nor takes one out, but by a scrub. */
  lemma TakenIsClean(rules: Rules, checkout: Tree, live: Tree, changes: seq<WatchChange>)
    ensures IsClean(Taken(rules, checkout, live, changes), rules) <==>
            IsClean(checkout, rules) || NeedsScrub(rules, changes)
  {
    var read := Overlay(checkout, live, Recordable(rules, changes));
    if !NeedsScrub(rules, changes) {
      forall p | IsExcluded(rules, p) ensures p in read <==> p in checkout {
        OverlayAt(checkout, live, Recordable(rules, changes), p);
        if Below(p, Recordable(rules, changes)) {
          ReadAboveARule(rules, changes, p);
        }
      }
    }
  }

  lemma {:induction false} DrainedIsClean(rules: Rules, checkout: Tree, polls: seq<Poll>)
    ensures IsClean(Drained(rules, checkout, polls), rules) <==> IsClean(checkout, rules) || Scrubs(rules, polls)
    decreases |polls|
  {
    if polls != [] && !polls[0].Broken? {
      var next := Answered(rules, checkout, polls[0]);
      if !Rebuilds(polls[0]) {
        TakenIsClean(rules, checkout, polls[0].live, polls[0].changes);
      }
      if !Ends(rules, polls[0]) {
        DrainedIsClean(rules, next, polls[1..]);
      }
    }
  }

  /** What a checkpoint leaves whose drain is cut short in a capture or a scrub,
      with `debris` in the checkout. */
  function AfterCut(s: Status, debris: Tree): Status {
    Noted(Holding(Remarked(s), debris), s.view.generation, Failed)
  }

  /** The next checkpoint records an excluded path exactly when the cut left one,
      there is something to record, and nothing the watcher says by then asks for
      a scrub. */
  lemma DebrisIsRecorded(cfg: Config, s: Status, debris: Tree, kind: Asked, rescan: Rescan, polls: seq<Poll>)
    requires s.view.state == Ready && !s.view.shadowed && !Breaks(cfg.rules, polls)
    requires IsClean(s.view.generation, cfg.rules)
    ensures var t := Served(cfg, Checkpoint(kind, rescan, polls), AfterCut(s, debris));
            t.rows != [] &&
            (!IsClean(LastRow(t).generation, cfg.rules) <==>
             !IsClean(debris, cfg.rules) && Worth(cfg.rules, s.view, polls) && !Scrubs(cfg.rules, polls))
  {
    var cut := AfterCut(s, debris);
    var generation, row := RowOf(cfg.rules, cut, kind, rescan, polls);
    ReadingLeaves(cfg.rules, Remarked(cut), polls);
    DrainedIsClean(cfg.rules, debris, polls);
    assert LastRow(Served(cfg, Checkpoint(kind, rescan, polls), cut)).generation == generation;
  }

  // -------------------------------------------------------------------------
  // Whole runs
  // -------------------------------------------------------------------------

  /** Requests under which any engine call may fail and nothing gets lost. */
  predicate Tolerant(request: Request) {
    request.Commit? || request.SetShadowed? || request.Tick? || request.RecordGeneration?
  }

  /** What a request answers when every engine call works. */
  ghost predicate Answers(rules: Rules, request: Request, s: Status) {
    match request
    case Checkpoint(_, _, polls) => s.view.shadowed || !Breaks(rules, polls)
    case RestorePaths(paths, safety, _, before, written, leaves, after) =>
      !s.view.shadowed && !SomeExcluded(rules, paths) && !(safety && Breaks(rules, before)) && written.Some? &&
      (leaves || !Breaks(rules, after))
    case PublishHead(polls) => s.view.state == Ready && !Breaks(rules, polls)
    case Fork(polls) => s.view.state == Ready && !Breaks(rules, polls)
    case Rewind(polls, _, swapped) => !Breaks(rules, polls) && swapped
    case ResolveSession(polls) => s.view.shadowed || !Breaks(rules, polls)
    case ApplySession(_, base, _, swapped) => s.head == base ==> swapped
    case Promote(_, base, pending, polls, _, swapped) =>
      !Breaks(rules, polls) && (pending && Drained(rules, s.view.checkout, polls) == base ==> swapped)
    case _ => true
  }

  /** The generation a request hands in to be recorded. */
  function GuestOf(request: Request): Option<Tree> {
    match request
    case ApplySession(generation, _, _, _) => Some(generation)
    case Promote(generation, _, _, _, _, _) => Some(generation)
    case RecordGeneration(generation, _) => Some(generation)
    case _ => None
  }

  /** A request and the engine call that fails under it, if one does. */
  type Item = (Request, Option<Fault>)

  /** Only an overlay that is promoted whole is put in the checkout as it is. */
  predicate Unspoilt(rules: Rules, request: Request) {
    request.Promote? ==> IsClean(request.generation, rules)
  }

  /** No excluded path can get into the checkout with this, whatever fails. */
  predicate Untainted(rules: Rules, item: Item) {
    Unspoilt(rules, item.0) && !Spoils(rules, item.1)
  }

  /** What one request may do: with no failing call exactly what `Served` says;
      with one, rows are only added, only a request that finds something lost
      writes a row over it, and the tolerant ones lose nothing. */
  ghost predicate Steps(cfg: Config, item: Item, s: Status, t: Status) {
    s.rows <= t.rows &&
    (t.guests == s.guests || (GuestOf(item.0).Some? && t.guests == s.guests + {GuestOf(item.0).value})) &&
    (item.1 == None ==> t == Served(cfg, item.0, s)) &&
    (Tolerant(item.0) && !Lost(s.view) ==> !Lost(t.view)) &&
    (!WritesHidden(cfg.rules, item.0, s.view) ==> HonestFrom(t.rows, |s.rows|))
  }

  /** The states a pipeline goes through from its start. */
  ghost predicate IsRun(cfg: Config, first: Rescan, items: seq<Item>, states: seq<Status>) {
    |states| == |items| + 1 && states[0] == Started(cfg.rules, first) &&
    forall i :: 0 <= i < |items| ==> Steps(cfg, items[i], states[i], states[i + 1])
  }

  /** With no failing call the requests alone decide the states. */
  ghost function After(cfg: Config, first: Rescan, items: seq<Item>): Status {
    if items == [] then Started(cfg.rules, first)
    else Served(cfg, items[|items| - 1].0, After(cfg, first, items[..|items| - 1]))
  }

  ghost predicate NoFaults(items: seq<Item>) {
    forall i :: 0 <= i < |items| ==> items[i].1 == None
  }

  lemma {:induction false} RunIsDetermined(cfg: Config, first: Rescan, items: seq<Item>, states: seq<Status>, n: nat)
    requires IsRun(cfg, first, items, states) && NoFaults(items) && n <= |items|
    ensures states[n] == After(cfg, first, items[..n])
  {
    if n > 0 {
      RunIsDetermined(cfg, first, items, states, n - 1);
      assert items[..n][..n - 1] == items[..n - 1];
      assert Steps(cfg, items[n - 1], states[n - 1], states[n]);
    }
  }

  /** Over any run, whatever fails: no noop row hides captured work unless some
      request finds it lost and writes one over it; with no failing call, exactly
      then. */
  lemma {:induction false} RunHidesExactlyWhen(cfg: Config, first: Rescan, items: seq<Item>, states: seq<Status>,
      n: nat)
    requires IsRun(cfg, first, items, states) && n <= |items|
    ensures (forall i :: 0 <= i < n ==> !WritesHidden(cfg.rules, items[i].0, states[i].view)) ==>
            HonestFrom(states[n].rows, 0)
    ensures NoFaults(items) && HonestFrom(states[n].rows, 0) ==>
            forall i :: 0 <= i < n ==> !WritesHidden(cfg.rules, items[i].0, states[i].view)
  {
    if n > 0 {
      var s, t, item := states[n - 1], states[n], items[n - 1];
      RunHidesExactlyWhen(cfg, first, items, states, n - 1);
      assert Steps(cfg, item, s, t);
      ServedWrites(cfg, item.0, s);
      HonestInParts([], s.rows, t.rows);
    }
  }

  /** None of the engine calls that matter fails, and the request hides nothing in
      the state it is taken in. */
  ghost predicate Fine(rules: Rules, item: Item, s: Status) {
    Tolerant(item.0) || (item.1 == None && !Hides(rules, item.0, s.view, s.head))
  }

  /** Only a request that leaves something out of sight writes a row over it. */
  lemma HiddenIsLost(rules: Rules, request: Request, v: View, head: Tree)
    ensures WritesHidden(rules, request, v) ==> Hides(rules, request, v, head)
  {
    if WritesHidden(rules, request, v) {
      QuietChangesNothing(rules, Readied(rules, v, request.rescan).checkout, request.polls);
    }
  }

  /** As long as no request leaves anything out of sight, nothing is. */
  lemma {:induction false} NothingHides(cfg: Config, first: Rescan, items: seq<Item>, states: seq<Status>, n: nat)
    requires IsRun(cfg, first, items, states) && n <= |items| && !LateNews(cfg.rules, first)
    requires forall i :: 0 <= i < n ==> Fine(cfg.rules, items[i], states[i])
    ensures HonestFrom(states[n].rows, 0) && !Lost(states[n].view)
  {
    if n > 0 {
      var s, t, item := states[n - 1], states[n], items[n - 1];
      NothingHides(cfg, first, items, states, n - 1);
      assert Steps(cfg, item, s, t) && Fine(cfg.rules, item, s);
      HiddenIsLost(cfg.rules, item.0, s.view, s.head);
      ServedHides(cfg, item.0, s);
      HonestInParts([], s.rows, t.rows);
    }
  }

  /** A condition on the request alone: no rescan it may make outside a drain is
      raced by a change that matters, and the watcher does not break under it.  A
      refused restore needs nothing; an apply depends on what is published. */
  ghost predicate Settled(rules: Rules, request: Request) {
    match request
    case Checkpoint(_, rescan, polls) => !LateNews(rules, rescan) && !Breaks(rules, polls)
    case RestorePaths(paths, safety, rescan, before, written, leaves, after) =>
      SomeExcluded(rules, paths) ||
      (!LateNews(rules, rescan) && (safety ==> !Breaks(rules, before)) &&
       (written.Some? && !leaves ==> !Breaks(rules, after)))
    case PublishHead(polls) => !Breaks(rules, polls)
    case Fork(polls) => !Breaks(rules, polls)
    case ResolveSession(polls) => !Breaks(rules, polls)
    case Rewind(_, rescan, _) => !LateNews(rules, rescan)
    case ApplySession(_, _, _, _) => false
    case Promote(_, _, _, polls, rescan, _) => !LateNews(rules, rescan) && !Breaks(rules, polls)
    case _ => true
  }

  /** Such a request hides nothing, whatever state it is taken in. */
  lemma SettledHidesNothing(rules: Rules, request: Request, v: View, head: Tree)
    requires Settled(rules, request) && !Lost(v)
    ensures !Hides(rules, request, v, head) && !WritesHidden(rules, request, v)
  {
    match request
    case Checkpoint(_, rescan, polls) =>
      if Quiet(rules, polls) {
        QuietChangesNothing(rules, Readied(rules, v, rescan).checkout, polls);
      }
    case RestorePaths(_, safety, rescan, before, _, _, _) =>
      if safety && Quiet(rules, before) {
        QuietChangesNothing(rules, Readied(rules, v, rescan).checkout, before);
      }
    case _ =>
  }

  /** The same read off the requests alone. */
  lemma {:induction false} SettledRunsHideNothing(cfg: Config, first: Rescan, items: seq<Item>, states: seq<Status>,
      n: nat)
    requires IsRun(cfg, first, items, states) && n <= |items| && !LateNews(cfg.rules, first)
    requires forall i :: 0 <= i < |items| ==>
               Tolerant(items[i].0) || (items[i].1 == None && Settled(cfg.rules, items[i].0))
    ensures HonestFrom(states[n].rows, 0) && !Lost(states[n].view)
    ensures forall i :: 0 <= i < n ==> Fine(cfg.rules, items[i], states[i])
  {
    if n > 0 {
      SettledRunsHideNothing(cfg, first, items, states, n - 1);
      if !Tolerant(items[n - 1].0) {
        SettledHidesNothing(cfg.rules, items[n - 1].0, states[n - 1].view, states[n - 1].head);
      }
    }
    NothingHides(cfg, first, items, states, n);
  }
}
