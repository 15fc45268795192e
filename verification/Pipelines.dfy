/** The capture pipeline: one checkout, the generation last recorded for it,
    and a timeline of rows.  Each request is shown to do what `Serving` says it
    does, under any engine call that fails to keep the invariants. */
module Pipelines {
  import opened Paths
  import opened Trees
  import opened Exclude
  import opened Serving

  /** Does the answer ask for a fresh watcher?  If not, its hints without those
      about the root. */
  method NeedsRebuild(poll: Poll) returns (rebuild: bool, rest: seq<WatchChange>)
    requires !poll.Broken?
    ensures rebuild == Rebuilds(poll)
    ensures !rebuild ==> rest == Stripped(poll.changes)
  {
    if poll.Invalidated? {
      return true, [];
    }
    var hint;
    rest, hint := StripRootHints(poll.changes);
    rebuild := hint == Structural;
  }

  method AnyExcluded(rules: Rules, paths: seq<Path>) returns (any: bool)
    ensures any == SomeExcluded(rules, paths)
  {
    for i := 0 to |paths|
      invariant !SomeExcluded(rules, paths[..i])
    {
      if IsExcluded(rules, paths[i]) {
        return true;
      }
      assert forall k :: 0 <= k < i + 1 ==> (k < i ==> paths[..i + 1][k] == paths[..i][k]);
    }
    assert paths[..|paths|] == paths;
    any := false;
  }

  /** The timeline ends at the last generation, and automatic rows are news. */
  ghost predicate EndsAt(rows: seq<Row>, generation: Tree) {
    (rows != [] ==> LastOwn(rows) == Some(generation)) && AutoRowsAreNews(rows)
  }

  /** One row more at most, and not one that could hide anything. */
  predicate AddsOne(rows: seq<Row>, more: seq<Row>) {
    more == rows || (more != [] && more == rows + [more[|more| - 1]] && more[|more| - 1].kind != Noop)
  }

  lemma AddedExtends(rows: seq<Row>, more: seq<Row>)
    requires AddsOne(rows, more)
    ensures Extends(rows, more)
  {}

  /** No recorded generation that was not handed in holds an excluded path, and
      neither does the last one. */
  ghost predicate CleanUpTo(rows: seq<Row>, rules: Rules, guests: set<Tree>, generation: Tree) {
    CleanButFor(rows, rules, guests) && (rows != [] ==> IsClean(generation, rules) || generation in guests)
  }

  lemma OneMoreAtTheEnd(rows: seq<Row>, last: Tree, row: Row)
    requires EndsAt(rows, last) && (row.kind == Auto ==> rows != [] && row.generation != last)
    requires row.own || rows != []
    ensures EndsAt(rows + [row], if row.own then row.generation else last)
  {
    OneMoreRow(rows, row);
  }

  lemma OneMoreUpTo(rows: seq<Row>, rules: Rules, guests: set<Tree>, last: Tree, row: Row, more: set<Tree>)
    requires CleanUpTo(rows, rules, guests, last) && (row.own || rows != [])
    requires more == guests || more == guests + {row.generation}
    requires IsClean(row.generation, rules) || row.generation in more
    ensures CleanUpTo(rows + [row], rules, more, if row.own then row.generation else last)
  {
    OneMoreClean(rows, rules, guests, row, more);
  }

  class Pipeline {
    const cfg: Config
    var checkout: Tree
    var lastGeneration: Tree
    var autoPending: Option<Tree>
    var state: State
    var shadowed: bool
    var sinceCommit: nat
    /** What was last published. */
    var head: Tree
    /** The first baseline is done. */
    var started: bool
    var rows: seq<Row>
    var fault: Option<Fault>
    /** Something failed part way and left an excluded path in the checkout, or
        published. */
    ghost var soiled: bool
    /** The recorded generations that were handed in, not taken from here. */
    ghost var guests: set<Tree>

    ghost function Whole(): Status reads this {
      Status(View(checkout, lastGeneration, autoPending, state, shadowed), head, sinceCommit, rows, guests)
    }

    /** The timeline ends at the last generation, automatic rows are news, and no
        recorded generation that was not handed in holds an excluded path. */
    ghost predicate Recorded() reads this {
      (state == Ready || started ==> rows != []) && Ended() && (soiled || Untainted())
    }

    ghost predicate Ended() reads `rows, `lastGeneration {
      EndsAt(rows, lastGeneration)
    }

    ghost predicate Untainted() reads `rows, `guests, `lastGeneration {
      CleanUpTo(rows, cfg.rules, guests, lastGeneration)
    }

    /** No excluded path is in the checkout or in what is published. */
    ghost predicate Spotless() reads this {
      (rows != [] ==> IsClean(checkout, cfg.rules)) && (started ==> IsClean(head, cfg.rules))
    }

    ghost predicate Valid() reads this {
      Recorded() && (soiled || Spotless())
    }

    /** An excluded path can only have got in with what a failing call left. */
    twostate predicate KeptClean() reads this {
      (soiled ==> old(soiled) || Spoils(cfg.rules, old(fault))) &&
      (Spoils(cfg.rules, fault) ==> Spoils(cfg.rules, old(fault)))
    }

    constructor (cfg: Config, stored: Tree)
      ensures this.cfg == cfg && Valid() && !soiled && !started && fault == None
      ensures Whole() == Status(View(stored, map[], None, Baselining, false), stored, 0, [], {})
    {
      this.cfg := cfg;
      checkout, lastGeneration, autoPending, state := stored, map[], None, Baselining;
      shadowed, sinceCommit, rows, fault, soiled := false, 0, [], None, false;
      head, started, guests := stored, false, {};
    }

    /** One engine or index call. */
    method Try() returns (ok: bool)
      modifies this`fault
      ensures ok == Outlasts(old(fault), 1)
      ensures fault == if ok then Spend(old(fault), 1) else None
    {
      ok := true;
      if fault.Some? {
        ok := fault.value.after > 0;
        fault := if ok then Some(fault.value.(after := fault.value.after - 1)) else None;
      }
    }

    /** Publishes the checkout; with nothing pending it is published already. */
    method CommitEngine() returns (ok: bool)
      modifies this`fault, this`sinceCommit, this`head
      ensures ok == Outlasts(old(fault), 1)
      ensures fault == if ok then Spend(old(fault), 1) else None
      ensures Whole() == if ok then Published(old(Whole())) else old(Whole())
    {
      ok := Try();
      if ok {
        sinceCommit := 0;
        head := checkout;
      }
    }

    /** Re-reads the hinted subtrees. */
    method Capture(changes: seq<WatchChange>, live: Tree) returns (ok: bool)
      modifies this`fault, this`checkout, this`soiled
      ensures KeptClean()
      ensures ok == Outlasts(old(fault), 1)
      ensures fault == if ok then Spend(old(fault), 1) else None
      ensures checkout == if ok then Captured(old(checkout), live, changes) else old(fault).value.debris
      ensures soiled == (old(soiled) || (!ok && !IsClean(checkout, cfg.rules)))
    {
      var left := if fault.Some? then fault.value.debris else checkout;
      ok := Try();
      checkout := if ok then Captured(checkout, live, changes) else left;
      soiled := soiled || (!ok && !IsClean(checkout, cfg.rules));
    }

    method ScrubExclusions() returns (ok: bool)
      modifies this`fault, this`checkout, this`soiled
      ensures KeptClean()
      ensures ok == Outlasts(old(fault), 1)
      ensures fault == if ok then Spend(old(fault), 1) else None
      ensures checkout == if ok then Scrubbed(old(checkout), cfg.rules) else old(fault).value.debris
      ensures soiled == (old(soiled) || (!ok && !IsClean(checkout, cfg.rules)))
    {
      var left := if fault.Some? then fault.value.debris else checkout;
      ok := Try();
      checkout := if ok then Scrubbed(checkout, cfg.rules) else left;
      soiled := soiled || (!ok && !IsClean(checkout, cfg.rules));
    }

    /** Adds a row for `generation`, which becomes the last one. */
    method Record(generation: Tree, kind: Kind) returns (ok: bool)
      requires Recorded()
      requires kind == Auto ==> rows != [] && generation != lastGeneration
      requires soiled || IsClean(generation, cfg.rules) || generation in guests
      modifies this`fault, this`rows, this`lastGeneration
      ensures Recorded()
      ensures ok == Outlasts(old(fault), 1)
      ensures fault == if ok then Spend(old(fault), 1) else None
      ensures Whole() == if ok then Noted(old(Whole()), generation, kind) else old(Whole())
    {
      ok := Try();
      if ok {
        var row := Row(generation, kind, checkout, shadowed, true);
        OneMoreAtTheEnd(rows, lastGeneration, row);
        if !soiled {
          OneMoreUpTo(rows, cfg.rules, guests, lastGeneration, row, guests);
        }
        rows := rows + [row];
        lastGeneration := generation;
      }
    }

    /** Adds a row for a generation that was handed in; an `own` row makes it the
        last one. */
    method RecordHanded(generation: Tree, kind: Handed, own: bool) returns (ok: bool)
      requires Recorded() && rows != []
      modifies this`fault, this`rows, this`lastGeneration, this`guests
      ensures Recorded()
      ensures ok == Outlasts(old(fault), 1)
      ensures fault == if ok then Spend(old(fault), 1) else None
      ensures Whole() == if ok then Hosted(old(Whole()), generation, kind, own) else old(Whole())
    {
      ok := Try();
      if ok {
        var row := Row(generation, kind, checkout, shadowed, own);
        OneMoreAtTheEnd(rows, lastGeneration, row);
        if !soiled {
          OneMoreUpTo(rows, cfg.rules, guests, lastGeneration, row, guests + {generation});
        }
        rows := rows + [row];
        guests := guests + {generation};
        if own {
          lastGeneration := generation;
        }
      }
    }

    /** Snapshots the checkout and records it. */
    method Snapshot(kind: Kind) returns (ok: bool)
      requires Recorded() && kind != Auto && (soiled || IsClean(checkout, cfg.rules))
      modifies this`fault, this`rows, this`lastGeneration
      ensures Recorded()
      ensures ok == Outlasts(old(fault), 2)
      ensures fault == if ok then Spend(old(fault), 2) else None
      ensures Whole() == if ok then Snapped(old(Whole()), kind) else old(Whole())
    {
      ok := Try();
      if ok {
        ok := Record(checkout, kind);
      }
    }

    /** Captures, then strips what is excluded. */
    method CaptureAndScrub(changes: seq<WatchChange>, live: Tree) returns (ok: bool)
      modifies this`fault, this`checkout, this`soiled
      ensures KeptClean()
      ensures ok == Outlasts(old(fault), 2)
      ensures fault == if ok then Spend(old(fault), 2) else None
      ensures checkout == if ok then Scrubbed(Captured(old(checkout), live, changes), cfg.rules)
                          else old(fault).value.debris
      ensures soiled == (old(soiled) || !IsClean(checkout, cfg.rules))
      ensures ok ==> soiled == old(soiled) && IsClean(checkout, cfg.rules)
    {
      ok := Capture(changes, live);
      if ok {
        ScrubbedIsClean(checkout, cfg.rules);
        ok := ScrubExclusions();
      }
    }

    /** Captures a filtered batch, with a scrub only where the filter asks for
        one: that leaves no excluded path where there was none. */
    method CaptureBatch(ghost batch: seq<WatchChange>, kept: seq<WatchChange>, scrub: bool, live: Tree)
      returns (ok: bool)
      requires RightlyFiltered(cfg.rules, batch, kept, scrub)
      modifies this`fault, this`checkout, this`soiled
      ensures KeptClean()
      ensures ok == Outlasts(old(fault), if scrub then 2 else 1)
      ensures fault == if ok then Spend(old(fault), if scrub then 2 else 1) else None
      ensures checkout == if !ok then old(fault).value.debris
                          else if scrub then Scrubbed(Captured(old(checkout), live, kept), cfg.rules)
                          else Captured(old(checkout), live, kept)
      ensures ok ==> soiled == old(soiled) && (old(IsClean(checkout, cfg.rules)) ==> IsClean(checkout, cfg.rules))
      ensures !ok ==> soiled == (old(soiled) || !IsClean(checkout, cfg.rules))
    {
      if IsClean(checkout, cfg.rules) {
        FilteredCaptureIsStripped(cfg.rules, checkout, live, batch, kept, scrub);
        ScrubbedIsClean(Captured(checkout, live, batch), cfg.rules);
      }
      ok := Capture(kept, live);
      if ok && scrub {
        ok := ScrubExclusions();
      }
    }

    /** What is recorded does not depend on the checkout. */
    twostate lemma StillRecorded()
      requires old(Recorded()) && unchanged(`rows, `guests, `lastGeneration, `started)
      requires (state == Ready ==> rows != []) && (old(soiled) ==> soiled)
      ensures Recorded()
    {}

    method ReadAll(live: Tree) returns (ok: bool)
      modifies this`fault, this`checkout, this`soiled
      ensures KeptClean()
      ensures ok == Outlasts(old(fault), 2)
      ensures fault == if ok then Spend(old(fault), 2) else None
      ensures ok ==> checkout == Scrubbed(live, cfg.rules) && IsClean(checkout, cfg.rules) && soiled == old(soiled)
      ensures old(soiled) ==> soiled
      ensures IsClean(checkout, cfg.rules) || Spoils(cfg.rules, old(fault))
    {
      WholeTree(checkout, live);
      ok := CaptureAndScrub([Modified([])], live);
    }

    /** Captures and records the whole live tree. */
    method ScanAll(kind: Kind, live: Tree) returns (ok: bool)
      requires Recorded() && kind != Auto && kind != Noop && state == Baselining
      modifies this`fault, this`checkout, this`soiled, this`rows, this`lastGeneration
      ensures KeptClean()
      ensures Recorded()
      ensures ok == Outlasts(old(fault), 4)
      ensures fault == if ok then Spend(old(fault), 4) else None
      ensures ok ==> Whole() == Snapped(Holding(old(Whole()), Scrubbed(live, cfg.rules)), kind)
      ensures ok ==> soiled == old(soiled) && IsClean(checkout, cfg.rules)
      ensures AddsOne(old(rows), rows)
      ensures IsClean(checkout, cfg.rules) || Spoils(cfg.rules, old(fault))
    {
      ok := ReadAll(live);
      StillRecorded();
      if ok {
        ok := Snapshot(kind);
      }
    }

    /** The changes that raced a rescan; hints about the root are covered. */
    method FoldTail(rescan: Rescan) returns (ok: bool)
      requires checkout == Rescanned(cfg.rules, rescan) && IsClean(checkout, cfg.rules)
      modifies this`fault, this`checkout, this`soiled
      ensures KeptClean()
      ensures ok == Outlasts(old(fault), RescanCalls(rescan) - 7)
      ensures fault == if ok then Spend(old(fault), RescanCalls(rescan) - 7) else None
      ensures ok ==> checkout == WithTail(cfg.rules, rescan) && soiled == old(soiled) && IsClean(checkout, cfg.rules)
      ensures old(soiled) ==> soiled
      ensures IsClean(checkout, cfg.rules) || Spoils(cfg.rules, old(fault))
    {
      ok := Try();
      var rest, hint := StripRootHints(rescan.tail);
      if ok {
        ok := FoldRest(rest, rescan);
      }
    }

    method FoldRest(rest: seq<WatchChange>, rescan: Rescan) returns (ok: bool)
      requires checkout == Rescanned(cfg.rules, rescan) && IsClean(checkout, cfg.rules) && rest == Stripped(rescan.tail)
      modifies this`fault, this`checkout, this`soiled
      ensures KeptClean() && (old(soiled) ==> soiled)
      ensures ok == Outlasts(old(fault), RescanCalls(rescan) - 8)
      ensures fault == if ok then Spend(old(fault), RescanCalls(rescan) - 8) else None
      ensures ok ==> checkout == WithTail(cfg.rules, rescan) && soiled == old(soiled)
      ensures IsClean(checkout, cfg.rules) || (!ok && Spoils(cfg.rules, old(fault)))
    {
      ok := true;
      if rest != [] {
        ok := CaptureAndScrub(rest, rescan.tailLive);
      }
    }

    /** Full rescan: capture the live tree, record it, fold in what raced the
        rescan, and only then declare the pipeline ready. */
    method Rebaseline(kind: Kind, rescan: Rescan) returns (ok: bool)
      requires Recorded() && kind != Auto && kind != Noop
      modifies this`fault, this`checkout, this`soiled, this`rows, this`lastGeneration,
               this`state, this`sinceCommit, this`head
      ensures old(soiled || Spotless()) ==> KeptClean()
      ensures Valid() && AddsOne(old(rows), rows)
      ensures ok == Outlasts(old(fault), RescanCalls(rescan) - 1)
      ensures fault == if ok then Spend(old(fault), RescanCalls(rescan) - 1) else None
      ensures ok ==> Whole() == Anew(cfg.rules, old(Whole()), kind, rescan) && soiled == old(soiled)
    {
      state := Baselining;
      StillRecorded();
      ok := PublishAround(kind, rescan);
      NoteSpots();
      if ok {
        label done:
        state := Ready;
        StillRecorded@done();
      }
    }

    /** Takes note of an excluded path in the checkout, or published. */
    ghost method NoteSpots()
      requires Recorded()
      modifies this`soiled
      ensures Valid() && soiled == (old(soiled) || !Spotless())
    {
      soiled := soiled || !Spotless();
      StillRecorded();
    }

    /** The rescan between two publishes. */
    method PublishAround(kind: Kind, rescan: Rescan) returns (ok: bool)
      requires Recorded() && kind != Auto && kind != Noop && state == Baselining
      modifies this`fault, this`checkout, this`soiled, this`rows, this`lastGeneration, this`sinceCommit, this`head
      ensures old(soiled || Spotless()) ==> KeptClean()
      ensures Recorded() && AddsOne(old(rows), rows)
      ensures ok == Outlasts(old(fault), RescanCalls(rescan) - 1)
      ensures fault == if ok then Spend(old(fault), RescanCalls(rescan) - 1) else None
      ensures ok ==>
        Whole() == Published(Holding(Snapped(Holding(Published(old(Whole())), Rescanned(cfg.rules, rescan)), kind),
                                     WithTail(cfg.rules, rescan)))
      ensures ok ==> soiled == old(soiled) && IsClean(checkout, cfg.rules) && head == checkout && rows != []
      ensures old(Spotless()) ==> Spotless() || Spoils(cfg.rules, old(fault))
    {
      ok := CommitEngine();
      StillRecorded();
      if ok {
        ok := ScanAndPublish(kind, rescan);
      }
    }

    method ScanAndPublish(kind: Kind, rescan: Rescan) returns (ok: bool)
      requires Recorded() && kind != Auto && kind != Noop && state == Baselining
      modifies this`fault, this`checkout, this`soiled, this`rows, this`lastGeneration, this`sinceCommit, this`head
      ensures KeptClean()
      ensures Recorded() && AddsOne(old(rows), rows)
      ensures ok == Outlasts(old(fault), RescanCalls(rescan) - 2)
      ensures fault == if ok then Spend(old(fault), RescanCalls(rescan) - 2) else None
      ensures ok ==>
        Whole() == Published(Holding(Snapped(Holding(old(Whole()), Rescanned(cfg.rules, rescan)), kind),
                                     WithTail(cfg.rules, rescan)))
      ensures ok ==> soiled == old(soiled) && IsClean(checkout, cfg.rules) && head == checkout && rows != []
      ensures IsClean(checkout, cfg.rules) || Spoils(cfg.rules, old(fault))
      ensures head == old(head) || head == checkout
    {
      ok := ScanAndFold(kind, rescan);
      label folded:
      if ok {
        ok := CommitEngine();
        StillRecorded@folded();
      }
    }

    method ScanAndFold(kind: Kind, rescan: Rescan) returns (ok: bool)
      requires Recorded() && kind != Auto && kind != Noop && state == Baselining
      modifies this`fault, this`checkout, this`soiled, this`rows, this`lastGeneration
      ensures KeptClean()
      ensures Recorded() && AddsOne(old(rows), rows)
      ensures ok == Outlasts(old(fault), RescanCalls(rescan) - 3)
      ensures fault == if ok then Spend(old(fault), RescanCalls(rescan) - 3) else None
      ensures ok ==>
        Whole() == Holding(Snapped(Holding(old(Whole()), Rescanned(cfg.rules, rescan)), kind),
                           WithTail(cfg.rules, rescan))
      ensures ok ==> soiled == old(soiled) && IsClean(checkout, cfg.rules)
      ensures IsClean(checkout, cfg.rules) || Spoils(cfg.rules, old(fault))
    {
      ok := ScanAll(kind, rescan.live);
      if ok {
        label scanned:
        ok := FoldTail(rescan);
        StillRecorded@scanned();
      }
    }

    /** A fresh watcher and a full rescan. */
    method Recover(rescan: Rescan) returns (ok: bool)
      requires Recorded()
      modifies this`fault, this`checkout, this`soiled, this`rows, this`lastGeneration,
               this`state, this`sinceCommit, this`head
      ensures old(soiled || Spotless()) ==> KeptClean()
      ensures Valid() && Extends(old(rows), rows)
      ensures ok == Outlasts(old(fault), RescanCalls(rescan))
      ensures fault == if ok then Spend(old(fault), RescanCalls(rescan)) else None
      ensures ok ==> Whole() == Anew(cfg.rules, old(Whole()), Recovered, rescan) && soiled == old(soiled)
    {
      ok := Try();
      if ok {
        ok := Rebaseline(Recovered, rescan);
        AddedExtends(old(rows), rows);
      } else {
        NoteSpots();
      }
    }

    /** Filters the hints of a batch, root hints already stripped, and captures
        what is left. */
    method TakeBatch(ghost changes: seq<WatchChange>, rest: seq<WatchChange>, live: Tree)
      returns (ok: bool, changed: bool)
      requires Valid() && rows != [] && rest == Stripped(changes)
      modifies this`fault, this`checkout, this`soiled
      ensures KeptClean()
      ensures Valid() && changed == HasNews(cfg.rules, changes)
      ensures ok == Outlasts(old(fault), BatchCalls(cfg.rules, changes))
      ensures fault == if ok then Spend(old(fault), BatchCalls(cfg.rules, changes)) else None
      ensures checkout == if ok then Taken(cfg.rules, old(checkout), live, changes) else old(fault).value.debris
      ensures ok ==> soiled == old(soiled)
    {
      var kept, scrub := FilterBatch(cfg.rules, rest);
      KeptIsNews(cfg.rules, changes, kept, scrub);
      changed := kept != [];
      ok := true;
      if changed {
        ScrubIsNeeded(cfg.rules, changes, kept, scrub);
        TakenIsStripped(cfg.rules, checkout, live, changes, kept, scrub);
        ok := CaptureBatch(rest, kept, scrub, live);
      } else {
        NothingTaken(cfg.rules, checkout, live, changes);
      }
    }

    /** One answer of the watcher. */
    method DrainOne(poll: Poll) returns (ok: bool, changed: bool, done: bool)
      requires Valid() && rows != []
      modifies this`fault, this`checkout, this`soiled, this`rows, this`lastGeneration,
               this`state, this`sinceCommit, this`head
      ensures KeptClean()
      ensures Valid() && Extends(old(rows), rows)
      ensures PollOutcome(cfg.rules, poll, old(Whole()), old(fault), Whole(), fault, ok, changed, done)
      ensures ok || poll.Broken? ==> soiled == old(soiled)
    {
      changed, done := false, true;
      ok := Try();
      ok := ok && !poll.Broken?;
      if ok {
        var rebuild, rest := NeedsRebuild(poll);
        ghost var left := fault;
        if rebuild {
          ok := Recover(poll.rescan);
          changed := true;
          RebuildIsPolled(cfg.rules, poll, old(Whole()), old(fault), left, Whole(), fault, ok);
        } else {
          ok, changed := TakeBatch(poll.changes, rest, poll.live);
          done := !changed && poll.settled;
          assert Whole() == Holding(old(Whole()), checkout);
          BatchIsPolled(cfg.rules, poll, old(Whole()), old(fault), left, Whole(), fault, ok);
        }
      }
    }

    /** Reads the watcher until it is quiet and captures what it says. */
    method Drain(polls: seq<Poll>) returns (ok: bool, changed: bool)
      requires Valid() && rows != []
      modifies this`fault, this`checkout, this`soiled, this`rows, this`lastGeneration,
               this`state, this`sinceCommit, this`head
      ensures KeptClean()
      ensures Valid() && Extends(old(rows), rows)
      ensures DrainOutcome(cfg.rules, polls, old(Whole()), old(fault), Whole(), fault, ok, changed)
      ensures Outlasts(old(fault), DrainCalls(cfg.rules, polls)) ==> soiled == old(soiled)
    {
      ok, changed := true, false;
      for i := 0 to |polls|
        invariant Valid() && ok && rows != [] && soiled == old(soiled)
        invariant unchanged(`rows, `lastGeneration, `state, `sinceCommit, `head)
        invariant LeftToDrain(cfg.rules, polls, i, old(Whole()), old(fault), Whole(), fault, changed)
      {
        ghost var now, left, found := Whole(), fault, changed;
        var news, done;
        ok, news, done := DrainOne(polls[i]);
        changed := changed || news;
        if !ok || done {
          DrainEnds(cfg.rules, polls, i, old(Whole()), old(fault), now, left, found, Whole(), fault, ok, news, done);
          return;
        }
        DrainGoesOn(cfg.rules, polls, i, old(Whole()), old(fault), now, left, found, Whole(), fault, news);
      }
    }

    /** Whether an idle tick captured changes no row has recorded since; a
        marker against an earlier generation is dropped. */
    method HasPending() returns (pending: bool)
      modifies this`autoPending
      ensures pending == (old(autoPending) == Some(lastGeneration))
      ensures Whole() == Remarked(old(Whole()))
    {
      pending := autoPending == Some(lastGeneration);
      if !pending {
        autoPending := None;
      }
    }

    /** One row was added; publish when enough have gathered. */
    method CountRow() returns (ok: bool)
      requires Valid()
      modifies this`fault, this`sinceCommit, this`head
      ensures KeptClean()
      ensures Valid()
      ensures old(fault) == None ==> ok && fault == None
      ensures ok ==> Whole() == Counted(cfg, old(Whole()))
    {
      ok := true;
      sinceCommit := sinceCommit + 1;
      if sinceCommit >= cfg.commitEvery {
        ok := CommitEngine();
      }
      StillRecorded();
    }

    /** The row a checkpoint writes: a snapshot when there is something to
        record, a noop otherwise. */
    method RecordDrained(kind: Asked, worth: bool) returns (ok: bool)
      requires Valid() && rows != [] && !shadowed
      modifies this`fault, this`rows, this`lastGeneration, this`autoPending, this`sinceCommit, this`head
      ensures KeptClean()
      ensures Valid()
      ensures old(fault) == None ==> ok && fault == None
      ensures ok ==>
        Whole() == Counted(cfg, if worth then Marked(Snapped(old(Whole()), kind), None)
                                else Noted(old(Whole()), old(lastGeneration), Noop))
      ensures !Outlasts(old(fault), if worth then 2 else 1) ==> !ok && fault == None && Whole() == old(Whole())
      ensures rows == old(rows) ||
        rows == (if worth then Snapped(old(Whole()), kind) else Noted(old(Whole()), old(lastGeneration), Noop)).rows
    {
      if worth {
        ok := Snapshot(kind);
        if ok {
          autoPending := None;
        }
      } else {
        ok := Record(lastGeneration, Noop);
      }
      if ok {
        ok := CountRow();
      }
    }

    /** A rescan if the pipeline is not ready. */
    method MakeReady(rescan: Rescan) returns (ok: bool)
      requires Valid() && rows != []
      modifies this`fault, this`checkout, this`soiled, this`rows, this`lastGeneration,
               this`state, this`sinceCommit, this`head
      ensures KeptClean()
      ensures Valid() && Extends(old(rows), rows)
      ensures ok == Outlasts(old(fault), ReadyCalls(old(state), rescan))
      ensures fault == if ok then Spend(old(fault), ReadyCalls(old(state), rescan)) else None
      ensures ok ==> Whole() == Prepared(cfg.rules, old(Whole()), rescan) && soiled == old(soiled)
    {
      ok := true;
      if state != Ready {
        ok := Recover(rescan);
      }
    }

    /** Drains, and says whether there is something to record: what was found, or
        what a marker stands for. */
    method DrainPending(polls: seq<Poll>) returns (ok: bool, worth: bool)
      requires Valid() && rows != []
      modifies this`fault, this`checkout, this`soiled, this`rows, this`lastGeneration,
               this`state, this`sinceCommit, this`head, this`autoPending
      ensures KeptClean()
      ensures Valid() && Extends(old(rows), rows)
      ensures ok == (!Breaks(cfg.rules, polls) && Outlasts(old(fault), DrainCalls(cfg.rules, polls)))
      ensures fault == if Outlasts(old(fault), DrainCalls(cfg.rules, polls))
                       then Spend(old(fault), DrainCalls(cfg.rules, polls)) else None
      ensures Outlasts(old(fault), DrainCalls(cfg.rules, polls)) ==>
        Whole() == Reading(cfg.rules, Remarked(old(Whole())), polls) && soiled == old(soiled)
      ensures ok ==> worth == Worth(cfg.rules, old(Whole()).view, polls)
      ensures old(fault).Some? && CutsShort(cfg.rules, polls, old(fault).value.after) ==>
        !ok && Whole() == Holding(Remarked(old(Whole())), old(fault).value.debris)
    {
      var pending := HasPending();
      StillRecorded();
      var changed;
      ok, changed := Drain(polls);
      worth := changed || pending;
    }

    /** Drains, snapshots and records without a question asked. */
    method DrainAndSnapshot(kind: Kind, polls: seq<Poll>) returns (ok: bool)
      requires Valid() && rows != [] && kind != Auto && kind != Noop
      modifies this`fault, this`checkout, this`soiled, this`rows, this`lastGeneration,
               this`state, this`sinceCommit, this`head
      ensures KeptClean()
      ensures Valid() && Extends(old(rows), rows)
      ensures old(fault) == None ==> ok == !Breaks(cfg.rules, polls) && fault == None && soiled == old(soiled)
      ensures ok || old(fault) == None ==> Whole() == Recording(cfg.rules, old(Whole()), kind, polls)
      ensures ok ==> !Breaks(cfg.rules, polls)
    {
      var changed;
      ok, changed := Drain(polls);
      ghost var drained := rows;
      if ok {
        ok := Snapshot(kind);
        ExtendsOn(old(rows), drained, rows);
      }
    }

    /** A requested checkpoint. */
    method Checkpoint(kind: Asked, rescan: Rescan, polls: seq<Poll>) returns (ok: bool)
      requires Valid() && rows != []
      modifies this
      ensures KeptClean()
      ensures Valid() && started == old(started) && old(rows) <= rows && guests == old(guests)
      ensures old(fault) == None ==>
        ok == (old(shadowed) || !Breaks(cfg.rules, polls)) && fault == None && soiled == old(soiled)
      ensures ok ==> Whole() == AfterCheckpoint(cfg, old(Whole()), kind, rescan, polls)
      ensures !old(shadowed) && Breaks(cfg.rules, polls) && old(fault) == None ==>
        Whole() == BeforeRow(cfg.rules, old(Whole()), rescan, polls)
      // With a failing call: nothing is hidden that was not lost before, and what
      // the call for the row or one within the drain leaves.
      ensures WritesHidden(cfg.rules, Request.Checkpoint(kind, rescan, polls), old(Whole()).view) ||
        HonestFrom(rows, |old(rows)|)
      ensures RowFails(cfg.rules, old(Whole()).view, old(fault), rescan, polls) ==>
        !ok && fault == None && Whole() == BeforeRow(cfg.rules, old(Whole()), rescan, polls)
      ensures (old(fault).Some? && !old(shadowed) && old(state) == Ready &&
               CutsShort(cfg.rules, polls, old(fault).value.after)) ==>
        !ok && fault == None && Whole() == Holding(Remarked(old(Whole())), old(fault).value.debris)
    {
      if shadowed {
        ok := Record(lastGeneration, Noop);
      } else {
        ok := CheckpointTree(kind, rescan, polls);
      }
    }

    /** One of the working tree itself. */
    method CheckpointTree(kind: Asked, rescan: Rescan, polls: seq<Poll>) returns (ok: bool)
      requires Valid() && rows != [] && !shadowed
      modifies this
      ensures KeptClean()
      ensures Valid() && started == old(started) && old(rows) <= rows && guests == old(guests)
      ensures old(fault) == None ==> ok == !Breaks(cfg.rules, polls) && fault == None && soiled == old(soiled)
      ensures ok ==> Whole() == AfterReady(cfg, Prepared(cfg.rules, old(Whole()), rescan), kind, polls)
      ensures Breaks(cfg.rules, polls) && old(fault) == None ==>
        Whole() == BeforeRow(cfg.rules, old(Whole()), rescan, polls)
      ensures WritesHidden(cfg.rules, Request.Checkpoint(kind, rescan, polls), old(Whole()).view) ||
        HonestFrom(rows, |old(rows)|)
      ensures RowFails(cfg.rules, old(Whole()).view, old(fault), rescan, polls) ==>
        !ok && fault == None && Whole() == BeforeRow(cfg.rules, old(Whole()), rescan, polls)
      ensures (old(fault).Some? && old(state) == Ready && CutsShort(cfg.rules, polls, old(fault).value.after)) ==>
        !ok && fault == None && Whole() == Holding(Remarked(old(Whole())), old(fault).value.debris)
    {
      ok := MakeReady(rescan);
      ghost var ready := rows;
      AnewLeaves(cfg.rules, old(Whole()), Recovered, rescan);
      if ok {
        ok := CheckpointReady(kind, polls);
        HonestInParts(old(rows), ready, rows);
      }
    }

    /** A requested checkpoint on a pipeline that is ready. */
    method CheckpointReady(kind: Asked, polls: seq<Poll>) returns (ok: bool)
      requires Valid() && state == Ready && !shadowed
      modifies this
      ensures KeptClean()
      ensures Valid() && started == old(started) && old(rows) <= rows && guests == old(guests)
      ensures old(fault) == None ==> ok == !Breaks(cfg.rules, polls) && fault == None && soiled == old(soiled)
      ensures ok ==> !Breaks(cfg.rules, polls) && Whole() == AfterReady(cfg, old(Whole()), kind, polls)
      ensures Breaks(cfg.rules, polls) && old(fault) == None ==>
        Whole() == Reading(cfg.rules, Remarked(old(Whole())), polls)
      ensures (Quiet(cfg.rules, polls) && Lost(old(Whole()).view)) || HonestFrom(rows, |old(rows)|)
      ensures RowFailsReady(cfg.rules, old(Whole()).view, old(fault), polls) ==>
        !ok && fault == None && Whole() == Reading(cfg.rules, Remarked(old(Whole())), polls)
      ensures old(fault).Some? && CutsShort(cfg.rules, polls, old(fault).value.after) ==>
        !ok && fault == None && Whole() == Holding(Remarked(old(Whole())), old(fault).value.debris)
    {
      var worth;
      ok, worth := DrainPending(polls);
      ghost var read := Whole();
      if ok {
        ok := RecordDrained(kind, worth);
        NoopIsHonest(cfg.rules, old(Whole()), polls);
        HonestInParts(old(rows), read.rows, rows);
      } else if old(fault).Some? && CutsShort(cfg.rules, polls, old(fault).value.after) {
        CutsWithin(cfg.rules, polls, old(fault).value.after);
      }
    }

    /** A failed request leaves a row that names the last generation. */
    method RecordFailure()
      requires Valid() && rows != []
      modifies this`fault, this`rows, this`lastGeneration
      ensures KeptClean()
      ensures Valid() && Extends(old(rows), rows)
      ensures fault == None || old(fault) != None
      ensures Whole() == if Outlasts(old(fault), 1) then Noted(old(Whole()), old(lastGeneration), Failed)
                         else old(Whole())
    {
      var ok := Record(lastGeneration, Failed);
      OneMoreHonest(old(Whole()), lastGeneration, Failed);
    }

    /** A checkpoint, and the row a failed one leaves. */
    method HandleCheckpoint(kind: Asked, rescan: Rescan, polls: seq<Poll>) returns (ok: bool)
      requires Valid() && started
      modifies this
      ensures KeptClean()
      ensures Valid() && started && old(rows) <= rows && guests == old(guests)
      ensures old(fault) == None ==>
        ok == (old(shadowed) || !Breaks(cfg.rules, polls)) && fault == None && soiled == old(soiled) &&
        Whole() == AfterCheckpoint(cfg, old(Whole()), kind, rescan, polls)
      ensures WritesHidden(cfg.rules, Request.Checkpoint(kind, rescan, polls), old(Whole()).view) ||
        HonestFrom(rows, |old(rows)|)
      ensures RowFails(cfg.rules, old(Whole()).view, old(fault), rescan, polls) ==>
        !ok && fault == None && Whole() == AfterFailedRow(cfg.rules, old(Whole()), rescan, polls)
      ensures (old(fault).Some? && !old(shadowed) && old(state) == Ready &&
               CutsShort(cfg.rules, polls, old(fault).value.after)) ==>
        !ok && fault == None && Whole() == AfterCut(old(Whole()), old(fault).value.debris)
    {
      ok := Checkpoint(kind, rescan, polls);
      ghost var tried := rows;
      if !ok {
        RecordFailure();
        HonestInParts(old(rows), tried, rows);
      }
    }

    /** The head that a promote or a fork starts from. */
    method PublishHead(polls: seq<Poll>) returns (ok: bool)
      requires Valid() && rows != []
      modifies this
      ensures KeptClean()
      ensures Valid() && started == old(started) && Extends(old(rows), rows) && guests == old(guests)
      ensures old(fault) == None ==>
        ok == (old(state) == Ready && !Breaks(cfg.rules, polls)) && fault == None && soiled == old(soiled)
      ensures ok || old(fault) == None ==> Whole() == AfterHead(cfg.rules, old(Whole()), polls)
    {
      if state != Ready {
        return false;
      }
      ok := DrainAndSnapshot(Manual, polls);
      if ok {
        sinceCommit := sinceCommit + 1;
      }
    }

    /** The safety row before a restore, when there is something to lose. */
    method SafetyRow(polls: seq<Poll>) returns (ok: bool)
      requires Valid() && rows != []
      modifies this
      ensures KeptClean()
      ensures Valid() && started == old(started) && Extends(old(rows), rows) && guests == old(guests)
      ensures old(fault) == None ==> ok == !Breaks(cfg.rules, polls) && fault == None && soiled == old(soiled)
      ensures ok || old(fault) == None ==> Whole() == AfterSafety(cfg.rules, old(Whole()), polls)
      ensures ok ==> !Breaks(cfg.rules, polls)
    {
      var worth;
      ok, worth := DrainPending(polls);
      ghost var drained := rows;
      if ok && worth {
        ok := Snapshot(Manual);
        ExtendsOn(old(rows), drained, rows);
        if ok {
          autoPending := None;
        }
      }
    }

    /** A pipeline that is ready, and the safety row when asked for. */
    method PrepareRestore(safety: bool, rescan: Rescan, before: seq<Poll>) returns (ok: bool)
      requires Valid() && rows != []
      modifies this
      ensures KeptClean()
      ensures Valid() && started == old(started) && Extends(old(rows), rows) && guests == old(guests)
      ensures old(fault) == None ==>
        ok == !(safety && Breaks(cfg.rules, before)) && fault == None && soiled == old(soiled)
      ensures ok ==> !(safety && Breaks(cfg.rules, before))
      ensures ok || old(fault) == None ==>
        var ready := Prepared(cfg.rules, old(Whole()), rescan);
        Whole() == if safety then AfterSafety(cfg.rules, ready, before) else ready
    {
      ok := MakeReady(rescan);
      ghost var readied := rows;
      if ok && safety {
        ok := SafetyRow(before);
        ExtendsOn(old(rows), readied, rows);
      }
    }

    /** Restores paths as one event: a safety row before, the writes, and a row
        with what the tree then holds.  `written` is the live tree after the
        writes, or None when one of them failed. */
    method RestorePaths(paths: seq<Path>, safety: bool, rescan: Rescan, before: seq<Poll>,
                        written: Option<Tree>, leaves: bool, after: seq<Poll>) returns (ok: bool)
      requires Valid() && rows != []
      modifies this
      ensures KeptClean()
      ensures Valid() && started == old(started) && Extends(old(rows), rows) && guests == old(guests)
      ensures old(shadowed) || SomeExcluded(cfg.rules, paths) ==> !ok && unchanged(this)
      ensures old(fault) == None ==>
        ok == Answers(cfg.rules, Request.RestorePaths(paths, safety, rescan, before, written, leaves, after),
                      old(Whole())) &&
        fault == None && soiled == old(soiled)
      ensures ok || old(fault) == None ==>
        Whole() == AfterRestore(cfg.rules, old(Whole()), paths, safety, rescan, before, written, leaves, after)
    {
      if shadowed {
        return false;
      }
      var refused := AnyExcluded(cfg.rules, paths);
      if refused {
        return false;
      }
      ok := PrepareRestore(safety, rescan, before);
      ok := ok && written.Some?;
      ghost var kept := rows;
      if ok {
        ok := FinishRestore(paths, written.value, leaves, after);
        ExtendsOn(old(rows), kept, rows);
      }
    }

    /** Captures what was written and records it. */
    method FinishRestore(paths: seq<Path>, live: Tree, leaves: bool, after: seq<Poll>) returns (ok: bool)
      requires Valid() && rows != [] && !SomeExcluded(cfg.rules, paths)
      modifies this
      ensures KeptClean()
      ensures Valid() && started == old(started) && Extends(old(rows), rows) && guests == old(guests)
      ensures old(fault) == None ==>
        ok == (leaves || !Breaks(cfg.rules, after)) && fault == None && soiled == old(soiled)
      ensures ok || old(fault) == None ==>
        Whole() == AfterWrites(cfg.rules, old(Whole()), paths, live, leaves, after)
    {
      if leaves {
        ok := RecordWritten(paths, live);
      } else {
        ok := DrainAndSnapshot(Manual, after);
      }
      if ok {
        sinceCommit := sinceCommit + 1;
      }
    }

    method RecordWritten(paths: seq<Path>, live: Tree) returns (ok: bool)
      requires Valid() && rows != [] && !SomeExcluded(cfg.rules, paths)
      modifies this`fault, this`checkout, this`soiled, this`rows, this`lastGeneration
      ensures KeptClean()
      ensures Valid() && Extends(old(rows), rows)
      ensures old(fault) == None ==> ok && fault == None && soiled == old(soiled)
      ensures ok ==>
        var read := Scrubbed(Captured(old(checkout), live, WrittenHints(paths)), cfg.rules);
        Whole() == Snapped(Holding(old(Whole()), read), Manual)
    {
      ok := CaptureRestored(paths, live);
      if ok {
        ghost var captured := Whole();
        ok := Snapshot(Manual);
        OneMoreHonest(captured, checkout, Manual);
      }
    }

    /** Captures what a restore wrote without waiting for the watcher. */
    method CaptureRestored(paths: seq<Path>, live: Tree) returns (ok: bool)
      requires Valid() && rows != [] && !SomeExcluded(cfg.rules, paths)
      modifies this`fault, this`checkout, this`soiled
      ensures KeptClean()
      ensures Valid()
      ensures old(fault) == None ==> ok && fault == None && soiled == old(soiled)
      ensures ok ==> checkout == Scrubbed(Captured(old(checkout), live, WrittenHints(paths)), cfg.rules)
    {
      var hints: seq<WatchChange> := [];
      var parents: seq<Path> := [];
      for i := 0 to |paths|
        invariant |hints| == i && forall k :: 0 <= k < i ==> hints[k] == Modified(paths[k])
        invariant parents == ParentsOf(paths[..i])
      {
        assert paths[..i + 1][..i] == paths[..i];
        hints := hints + [Modified(paths[i])];
        if |paths[i]| > 1 {
          parents := Insert(parents, paths[i][..|paths[i]| - 1]);
        }
      }
      assert paths[..|paths|] == paths;
      hints := hints + seq(|parents|, i requires 0 <= i < |parents| => MetadataChanged(parents[i]));
      assert hints == WrittenHints(paths);
      ok := CaptureAndScrub(hints, live);
      StillRecorded();
    }

    /** The checkout half of a rewind: a safety row and a publish, the swap of
        the working tree, and a fresh baseline.  `rescan` reads what the swap left,
        and its error is reported after that. */
    method Rewind(polls: seq<Poll>, rescan: Rescan, swapped: bool) returns (ok: bool)
      requires Valid() && rows != []
      modifies this
      ensures KeptClean()
      ensures Valid() && started == old(started) && Extends(old(rows), rows) && guests == old(guests)
      ensures old(fault) == None ==>
        ok == (!Breaks(cfg.rules, polls) && swapped) && fault == None && soiled == old(soiled)
      ensures ok || old(fault) == None ==> Whole() == AfterRewind(cfg.rules, old(Whole()), polls, rescan)
    {
      state := Rewinding;
      StillRecorded();
      ok := DrainAndPublish(polls);
      ghost var kept := rows;
      if ok {
        ok := Recover(rescan);
        ExtendsOn(old(rows), kept, rows);
        ok := ok && swapped;
      }
    }

    /** Drains, and records and publishes what that gives. */
    method DrainAndPublish(polls: seq<Poll>) returns (ok: bool)
      requires Valid() && rows != []
      modifies this`fault, this`checkout, this`soiled, this`rows, this`lastGeneration,
               this`state, this`sinceCommit, this`head
      ensures KeptClean()
      ensures Valid() && Extends(old(rows), rows)
      ensures old(fault) == None ==> ok == !Breaks(cfg.rules, polls) && fault == None && soiled == old(soiled)
      ensures ok ==>
        !Breaks(cfg.rules, polls) && Whole() == Published(Recording(cfg.rules, old(Whole()), PreRewind, polls))
      ensures !ok && old(fault) == None ==> Whole() == Reading(cfg.rules, old(Whole()), polls)
    {
      ok := DrainAndSnapshot(PreRewind, polls);
      if ok {
        label safe:
        ok := CommitEngine();
        StillRecorded@safe();
      }
    }

    /** The commit half of a Safe Mode session.  After a shadow the watcher is
        replaced and what it says about the rescan is not looked at. */
    method ResolveSession(polls: seq<Poll>) returns (ok: bool)
      requires Valid() && rows != []
      modifies this
      ensures KeptClean()
      ensures Valid() && started == old(started) && Extends(old(rows), rows) && guests == old(guests)
      ensures old(fault) == None ==>
        ok == (old(shadowed) || !Breaks(cfg.rules, polls)) && fault == None && soiled == old(soiled)
      ensures ok || old(fault) == None ==> Whole() == AfterResolve(cfg.rules, old(Whole()), polls)
    {
      if shadowed {
        ok := ResolveShadow();
      } else {
        ok := DrainAndSnapshot(PreRewind, polls);
      }
    }

    method ResolveShadow() returns (ok: bool)
      requires Valid() && rows != []
      modifies this`fault, this`shadowed, this`state, this`rows, this`lastGeneration
      ensures KeptClean() && Valid() && Extends(old(rows), rows)
      ensures old(fault) == None ==> ok && fault == None
      ensures ok ==>
        Whole() == Snapped(old(Whole()).(view := old(Whole()).view.(shadowed := false, state := Ready)), PreRewind)
    {
      shadowed := false;
      ok := Try();
      if ok {
        ok := Try();
      }
      if ok {
        state := Ready;
        StillRecorded();
        ok := Snapshot(PreRewind);
      }
      StillExtends(old(rows), Whole(), PreRewind);
    }

    /** The swap half: lands a session's generation, unless something was
        published since its base.  Either way the checkout is replaced by what
        is published.  What lands is recorded as it is. */
    method ApplySession(generation: Tree, base: Tree, rescan: Rescan, swapped: bool) returns (ok: bool)
      requires Valid() && started
      modifies this
      ensures KeptClean()
      ensures Valid() && started && Extends(old(rows), rows)
      ensures guests == old(guests) || guests == old(guests) + {generation}
      ensures old(fault) == None ==>
        ok == (old(head) == base ==> swapped) && fault == None && soiled == old(soiled) &&
        Whole() == AfterApply(cfg.rules, old(Whole()), generation, base, rescan)
    {
      state := Rewinding;
      ok := Try();
      if !ok {
        StillRecorded();
        return;
      }
      checkout := head;
      if head != base {
        state := Ready;
        StillRecorded();
        return;
      }
      StillRecorded();
      ok := LandGeneration(generation, rescan);
      ok := ok && swapped;
    }

    /** Records a generation that was handed in, in whose place the checkout already
        is, and reads the working tree after the swap that lands it. */
    method LandGeneration(generation: Tree, rescan: Rescan) returns (ok: bool)
      requires Recorded() && rows != []
      modifies this`fault, this`checkout, this`soiled, this`rows, this`lastGeneration,
               this`state, this`sinceCommit, this`head, this`guests
      ensures old(soiled || Spotless()) ==> KeptClean()
      ensures Valid() && Extends(old(rows), rows)
      ensures guests == old(guests) || guests == old(guests) + {generation}
      ensures old(fault) == None ==> ok && fault == None
      ensures ok ==> Whole() == AfterLanding(cfg.rules, old(Whole()), generation, rescan) && soiled == old(soiled)
    {
      ok := RecordHanded(generation, Manual, true);
      ghost var recorded := rows;
      if ok {
        ok := Recover(rescan);
        ExtendsOn(old(rows), recorded, rows);
      } else {
        NoteSpots();
      }
    }

    /** Promotes an overlay whole: a safety row and a publish, the overlay published
        if nothing came between, and its generation landed. */
    method Promote(generation: Tree, base: Tree, pending: bool, polls: seq<Poll>, rescan: Rescan, swapped: bool)
      returns (ok: bool)
      requires Valid() && rows != []
      modifies this
      ensures Valid() && started == old(started) && Extends(old(rows), rows)
      ensures guests == old(guests) || guests == old(guests) + {generation}
      ensures old(fault) == None ==>
        ok == (!Breaks(cfg.rules, polls) &&
               (pending && Drained(cfg.rules, old(checkout), polls) == base ==> swapped)) &&
        fault == None && soiled == old(soiled) &&
        Whole() == AfterPromote(cfg.rules, old(Whole()), generation, base, pending, polls, rescan)
      ensures IsClean(generation, cfg.rules) ==> KeptClean()
    {
      ok := DrainAndPublish(polls);
      ghost var kept := rows;
      if ok {
        DrainedIsPublished(cfg.rules, old(Whole()), polls);
        ok := TakeOverlay(generation, base, pending, rescan, swapped);
        ExtendsOn(old(rows), kept, rows);
      }
    }

    method TakeOverlay(generation: Tree, base: Tree, pending: bool, rescan: Rescan, swapped: bool) returns (ok: bool)
      requires Valid() && rows != []
      modifies this`fault, this`checkout, this`soiled, this`rows, this`lastGeneration,
               this`state, this`sinceCommit, this`head, this`guests
      ensures Valid() && Extends(old(rows), rows)
      ensures guests == old(guests) || guests == old(guests) + {generation}
      ensures old(fault) == None ==>
        ok == (pending && old(head) == base ==> swapped) && fault == None && soiled == old(soiled) &&
        Whole() == AfterOverlay(cfg.rules, old(Whole()), generation, base, pending, rescan)
      ensures IsClean(generation, cfg.rules) ==> KeptClean()
    {
      if !pending || head != base {
        return true;
      }
      ok := PublishOverlay(generation, rescan);
      ok := ok && swapped;
    }

    /** The overlay of a promote becomes what is published, and lands. */
    method PublishOverlay(generation: Tree, rescan: Rescan) returns (ok: bool)
      requires Valid() && rows != []
      modifies this`fault, this`checkout, this`soiled, this`rows, this`lastGeneration,
               this`state, this`sinceCommit, this`head, this`guests
      ensures Valid() && Extends(old(rows), rows)
      ensures guests == old(guests) || guests == old(guests) + {generation}
      ensures old(fault) == None ==> ok && fault == None
      ensures ok ==>
        Whole() == AfterLanding(cfg.rules, Published(Holding(old(Whole()), generation)), generation, rescan) &&
        soiled == old(soiled)
      ensures IsClean(generation, cfg.rules) ==> KeptClean()
    {
      ok := Try();
      if !ok {
        return;
      }
      head, sinceCommit := generation, 0;
      StillRecorded();
      ok := RefreshAndLand(rescan);
    }

    method RefreshAndLand(rescan: Rescan) returns (ok: bool)
      requires Recorded() && rows != []
      modifies this`fault, this`checkout, this`soiled, this`rows, this`lastGeneration,
               this`state, this`sinceCommit, this`head, this`guests
      ensures old(soiled || (Spotless() && IsClean(head, cfg.rules))) ==> KeptClean()
      ensures Valid() && Extends(old(rows), rows)
      ensures guests == old(guests) || guests == old(guests) + {old(head)}
      ensures old(fault) == None ==> ok && fault == None
      ensures ok ==>
        Whole() == AfterLanding(cfg.rules, Holding(old(Whole()), old(head)), old(head), rescan) && soiled == old(soiled)
    {
      state := Rewinding;
      ok := Try();
      if ok {
        checkout := head;
        StillRecorded();
        ok := LandGeneration(head, rescan);
      } else {
        StillRecorded();
        NoteSpots();
      }
    }

    /** An automatic row, unless the tree is the last row's again. */
    method TryAutoCheckpoint() returns (ok: bool)
      requires Valid() && rows != []
      modifies this`fault, this`rows, this`lastGeneration, this`sinceCommit, this`head
      ensures KeptClean()
      ensures Valid() && Extends(old(rows), rows)
      ensures old(fault) == None ==> ok && fault == None
      ensures ok ==>
        Whole() == if checkout == old(lastGeneration) then old(Whole()) else Counted(cfg, Snapped(old(Whole()), Auto))
      ensures lastGeneration == old(lastGeneration) || lastGeneration == checkout
    {
      ok := Try();
      if ok && checkout != lastGeneration {
        ok := RecordAuto();
      }
    }

    method RecordAuto() returns (ok: bool)
      requires Valid() && rows != [] && checkout != lastGeneration
      modifies this`fault, this`rows, this`lastGeneration, this`sinceCommit, this`head
      ensures KeptClean()
      ensures Valid() && Extends(old(rows), rows)
      ensures old(fault) == None ==> ok && fault == None
      ensures ok ==> Whole() == Counted(cfg, Snapped(old(Whole()), Auto))
      ensures lastGeneration == old(lastGeneration) || lastGeneration == checkout
    {
      ok := Record(checkout, Auto);
      StillExtends(old(rows), Whole(), Auto);
      if ok {
        ok := CountRow();
      }
    }

    /** Drains on an idle tick and marks what that captured, also when the
        drain gave up half way. */
    method DrainAndMark(polls: seq<Poll>) returns (ok: bool)
      requires Valid() && rows != []
      modifies this
      ensures KeptClean()
      ensures Valid() && started == old(started) && Extends(old(rows), rows) && guests == old(guests)
      ensures old(fault) == None ==> ok == !Breaks(cfg.rules, polls) && fault == None && soiled == old(soiled)
      ensures ok || old(fault) == None ==> Whole() == AfterMarking(cfg.rules, old(Whole()), polls)
      ensures !ok ==> autoPending == Some(lastGeneration)
    {
      var changed;
      ok, changed := Drain(polls);
      if !ok {
        var pending := HasPending();
        changed := !pending;
      }
      if changed {
        autoPending := Some(lastGeneration);
      }
    }

    /** The row for marked changes, once they are quiet. */
    method RecordWhenQuiet(quietLongEnough: bool)
      requires Valid() && rows != []
      modifies this`fault, this`rows, this`lastGeneration, this`sinceCommit, this`autoPending, this`head
      ensures KeptClean()
      ensures Valid() && Extends(old(rows), rows)
      ensures old(fault) == None ==> fault == None && Whole() == AfterQuiet(cfg, old(Whole()), quietLongEnough)
      ensures !Lost(old(Whole()).view) ==> !Lost(Whole().view)
    {
      var pending := HasPending();
      if pending && quietLongEnough {
        var ok := TryAutoCheckpoint();
        if ok {
          autoPending := None;
        }
      }
    }

    /** The safety net for hosts that ask for nothing: marked changes become a
        row once they have been quiet for a whole tick. */
    method AutoCheckpoint(polls: seq<Poll>, quietLongEnough: bool)
      requires Valid() && rows != []
      modifies this
      ensures KeptClean()
      ensures Valid() && started == old(started) && Extends(old(rows), rows) && guests == old(guests)
      ensures !Lost(old(Whole()).view) ==> !Lost(Whole().view)
      ensures old(fault) == None ==>
        fault == None && soiled == old(soiled) && Whole() == AfterAuto(cfg, old(Whole()), polls, quietLongEnough)
    {
      if !cfg.autoEnabled || shadowed || state != Ready {
        return;
      }
      MarkingLeaves(cfg.rules, Whole(), polls);
      var ok := DrainAndMark(polls);
      ghost var marked := rows;
      if ok {
        RecordWhenQuiet(quietLongEnough);
        ExtendsOn(old(rows), marked, rows);
      }
    }

    /** The idle timer: an idle publish, then the automatic checkpoint.  Its
        failures are not reported to anyone. */
    method Tick(commitIdle: bool, polls: seq<Poll>, quietLongEnough: bool)
      requires Valid() && rows != []
      modifies this
      ensures KeptClean()
      ensures Valid() && started == old(started) && Extends(old(rows), rows) && guests == old(guests)
      ensures !Lost(old(Whole()).view) ==> !Lost(Whole().view)
      ensures old(fault) == None ==>
        fault == None && soiled == old(soiled) &&
        Whole() == AfterTick(cfg, old(Whole()), commitIdle, polls, quietLongEnough)
    {
      if state == Ready && sinceCommit > 0 && commitIdle {
        var published := CommitEngine();
        StillRecorded();
      }
      AutoCheckpoint(polls, quietLongEnough);
    }

    /** One request off the queue, or an idle tick. */
    method Handle(request: Request) returns (ok: bool)
      requires Valid() && started
      modifies this
      ensures Valid() && started
      ensures Steps(cfg, (request, old(fault)), old(Whole()), Whole())
      ensures old(fault) == None ==>
        ok == Answers(cfg.rules, request, old(Whole())) && fault == None && soiled == old(soiled)
      ensures Unspoilt(cfg.rules, request) ==> KeptClean()
    {
      match request
      case Checkpoint(kind, rescan, polls) => ok := HandleCheckpoint(kind, rescan, polls);
      case RestorePaths(_, _, _, _, _, _, _) => ok := HandleRecord(request);
      case PublishHead(_) => ok := HandleRecord(request);
      case Fork(_) => ok := HandleRecord(request);
      case Rewind(_, _, _) => ok := HandleSwap(request);
      case ResolveSession(_) => ok := HandleSwap(request);
      case ApplySession(_, _, _, _) => ok := HandleSwap(request);
      case Promote(_, _, _, _, _, _) => ok := HandleSwap(request);
      case _ => ok := HandleTolerant(request);
    }

    /** The requests that record the working tree as it stands. */
    method HandleRecord(request: Request) returns (ok: bool)
      requires Valid() && started && (request.RestorePaths? || request.PublishHead? || request.Fork?)
      modifies this
      ensures KeptClean()
      ensures Valid() && started
      ensures Steps(cfg, (request, old(fault)), old(Whole()), Whole())
      ensures old(fault) == None ==>
        ok == Answers(cfg.rules, request, old(Whole())) && fault == None && soiled == old(soiled)
    {
      match request
      case RestorePaths(paths, safety, rescan, before, written, leaves, after) =>
        ok := RestorePaths(paths, safety, rescan, before, written, leaves, after);
        StepsPlainly(cfg, (request, old(fault)), old(Whole()), Whole());
      case PublishHead(polls) =>
        ok := PublishHead(polls);
        StepsPlainly(cfg, (request, old(fault)), old(Whole()), Whole());
      case Fork(polls) =>
        ok := PublishHead(polls);
        StepsPlainly(cfg, (request, old(fault)), old(Whole()), Whole());
    }

    /** The requests around a swap of the working tree. */
    method HandleSwap(request: Request) returns (ok: bool)
      requires Valid() && started
      requires request.Rewind? || request.ResolveSession? || request.ApplySession? || request.Promote?
      modifies this
      ensures Valid() && started
      ensures Steps(cfg, (request, old(fault)), old(Whole()), Whole())
      ensures old(fault) == None ==>
        ok == Answers(cfg.rules, request, old(Whole())) && fault == None && soiled == old(soiled)
      ensures Unspoilt(cfg.rules, request) ==> KeptClean()
    {
      match request
      case Rewind(polls, rescan, swapped) => ok := Rewind(polls, rescan, swapped);
      case ResolveSession(polls) => ok := ResolveSession(polls);
      case ApplySession(generation, base, rescan, swapped) => ok := ApplySession(generation, base, rescan, swapped);
      case Promote(generation, base, pending, polls, rescan, swapped) =>
        ok := Promote(generation, base, pending, polls, rescan, swapped);
      StepsPlainly(cfg, (request, old(fault)), old(Whole()), Whole());
    }

    /** The requests under which nothing can get lost. */
    method HandleTolerant(request: Request) returns (ok: bool)
      requires Valid() && started && Tolerant(request)
      modifies this
      ensures KeptClean()
      ensures Valid() && started
      ensures Steps(cfg, (request, old(fault)), old(Whole()), Whole())
      ensures old(fault) == None ==> ok && fault == None && soiled == old(soiled)
    {
      ok := true;
      match request
      case Commit =>
        ok := CommitEngine();
        StillRecorded();
      case SetShadowed(active) =>
        shadowed := active;
        StillRecorded();
      case RecordGeneration(generation, kind) =>
        ok := RecordHanded(generation, kind, false);
      case Tick(commitIdle, polls, quietLongEnough) => Tick(commitIdle, polls, quietLongEnough);
    }
  }

  /** What one answer of the watcher does, with a call that may fail. */
  ghost predicate PollOutcome(rules: Rules, poll: Poll, before: Status, fault: Option<Fault>, s: Status,
      left: Option<Fault>, ok: bool, changed: bool, done: bool)
  {
    var n := PollCalls(rules, poll);
    ok == (!poll.Broken? && Outlasts(fault, n)) && left == (if Outlasts(fault, n) then Spend(fault, n) else None) &&
    (ok ==> changed == IsNews(rules, poll) && done == Ends(rules, poll)) &&
    (ok || poll.Broken? ==> s == Polled(rules, before, poll)) &&
    (!ok && !poll.Broken? && !Rebuilds(poll) ==>
       s == if fault.value.after == 0 then before else Holding(before, fault.value.debris))
  }

  lemma RebuildIsPolled(rules: Rules, poll: Poll, before: Status, fault: Option<Fault>, left: Option<Fault>, s: Status,
      rest: Option<Fault>, ok: bool)
    requires !poll.Broken? && Rebuilds(poll) && Outlasts(fault, 1) && left == Spend(fault, 1)
    requires var n := RescanCalls(poll.rescan);
             ok == Outlasts(left, n) && rest == (if ok then Spend(left, n) else None) &&
             (ok ==> s == Anew(rules, before, Recovered, poll.rescan))
    ensures PollOutcome(rules, poll, before, fault, s, rest, ok, true, true)
  {}

  lemma BatchIsPolled(rules: Rules, poll: Poll, before: Status, fault: Option<Fault>, left: Option<Fault>, s: Status,
      rest: Option<Fault>, ok: bool)
    requires !poll.Broken? && !Rebuilds(poll) && Outlasts(fault, 1) && left == Spend(fault, 1)
    requires var n := BatchCalls(rules, poll.changes);
             ok == Outlasts(left, n) && rest == (if ok then Spend(left, n) else None) &&
             s == Holding(before, if ok then Taken(rules, before.view.checkout, poll.live, poll.changes)
                                  else left.value.debris)
    ensures var changed := HasNews(rules, poll.changes);
            PollOutcome(rules, poll, before, fault, s, rest, ok, changed, !changed && poll.settled)
  {}

  /** What a whole drain does. */
  ghost predicate DrainOutcome(rules: Rules, polls: seq<Poll>, before: Status, fault: Option<Fault>, s: Status,
      left: Option<Fault>, ok: bool, changed: bool)
  {
    var n := DrainCalls(rules, polls);
    ok == (!Breaks(rules, polls) && Outlasts(fault, n)) &&
    left == (if Outlasts(fault, n) then Spend(fault, n) else None) &&
    (Outlasts(fault, n) ==> s == Reading(rules, before, polls)) &&
    (ok ==> changed == FindsNews(rules, polls)) &&
    (fault.Some? && CutsShort(rules, polls, fault.value.after) ==> !ok && s == Holding(before, fault.value.debris))
  }

  /** A drain is what it did so far and what is left of it. */
  ghost predicate LeftToDrain(rules: Rules, polls: seq<Poll>, i: nat, before: Status, fault: Option<Fault>, s: Status,
      left: Option<Fault>, changed: bool)
    requires i <= |polls|
  {
    var calls := DrainCalls(rules, polls) - DrainCalls(rules, polls[i..]);
    calls >= 0 && Outlasts(fault, calls) && left == Spend(fault, calls) && s == Holding(before, s.view.checkout) &&
    (Breaks(rules, polls) <==> Breaks(rules, polls[i..])) &&
    (FindsNews(rules, polls) <==> changed || FindsNews(rules, polls[i..])) &&
    Reading(rules, before, polls) == Reading(rules, s, polls[i..]) &&
    (fault.Some? && CutsShort(rules, polls, fault.value.after) ==>
       CutsShort(rules, polls[i..], fault.value.after - calls))
  }

  lemma DrainGoesOn(rules: Rules, polls: seq<Poll>, i: nat, before: Status, fault: Option<Fault>, s: Status,
      left: Option<Fault>, changed: bool, t: Status, rest: Option<Fault>, news: bool)
    requires i < |polls| && LeftToDrain(rules, polls, i, before, fault, s, left, changed)
    requires PollOutcome(rules, polls[i], s, left, t, rest, true, news, false)
    ensures LeftToDrain(rules, polls, i + 1, before, fault, t, rest, changed || news)
  {
    assert polls[i..][0] == polls[i] && polls[i..][1..] == polls[i + 1..];
    assert DrainCalls(rules, polls[i..]) == PollCalls(rules, polls[i]) + DrainCalls(rules, polls[i + 1..]);
  }

  lemma DrainEnds(rules: Rules, polls: seq<Poll>, i: nat, before: Status, fault: Option<Fault>, s: Status,
      left: Option<Fault>, changed: bool, t: Status, rest: Option<Fault>, ok: bool, news: bool, done: bool)
    requires i < |polls| && LeftToDrain(rules, polls, i, before, fault, s, left, changed)
    requires PollOutcome(rules, polls[i], s, left, t, rest, ok, news, done) && (!ok || done)
    ensures DrainOutcome(rules, polls, before, fault, t, rest, ok, changed || news)
  {
    assert polls[i..][0] == polls[i] && polls[i..][1..] == polls[i + 1..];
  }

  lemma DrainedIsPublished(rules: Rules, s: Status, polls: seq<Poll>)
    requires !Breaks(rules, polls)
    ensures Published(Recording(rules, s, PreRewind, polls)).head == Drained(rules, s.view.checkout, polls)
  {
    ReadingLeaves(rules, s, polls);
  }

  /** A request that writes nothing over what is lost does what it may. */
  lemma StepsPlainly(cfg: Config, item: Item, s: Status, t: Status)
    requires Extends(s.rows, t.rows) && (item.1 == None ==> t == Served(cfg, item.0, s))
    requires t.guests == s.guests || (GuestOf(item.0).Some? && t.guests == s.guests + {GuestOf(item.0).value})
    requires Tolerant(item.0) && !Lost(s.view) ==> !Lost(t.view)
    ensures Steps(cfg, item, s, t)
  {}

  lemma StillExtends(rows: seq<Row>, s: Status, kind: Kind)
    requires kind != Noop
    requires s.rows == rows || s.rows == rows + [Row(s.view.generation, kind, s.view.checkout, s.view.shadowed, true)]
    ensures Extends(rows, s.rows)
  {}

  lemma {:induction false} CutsWithin(rules: Rules, polls: seq<Poll>, n: nat)
    requires CutsShort(rules, polls, n)
    ensures n < DrainCalls(rules, polls)
    decreases |polls|
  {
    if n >= PollCalls(rules, polls[0]) {
      CutsWithin(rules, polls[1..], n - PollCalls(rules, polls[0]));
    }
  }

  /** The noop row of a checkpoint, once the drain found nothing. */
  lemma NoopIsHonest(rules: Rules, s: Status, polls: seq<Poll>)
    requires s.view.state == Ready && !Breaks(rules, polls)
    ensures var read := Reading(rules, Remarked(s), polls);
            !Worth(rules, s.view, polls) ==>
            Quiet(rules, polls) &&
            (Lost(s.view) || Extends(read.rows, Noted(read, read.view.generation, Noop).rows))
    ensures var read := Reading(rules, Remarked(s), polls);
            forall kind :: kind != Noop ==> Extends(read.rows, Snapped(read, kind).rows)
  {
    var read := Reading(rules, Remarked(s), polls);
    ReadingLeaves(rules, Remarked(s), polls);
    OneMoreHonest(read, read.view.generation, Noop);
    forall kind | kind != Noop ensures Extends(read.rows, Snapped(read, kind).rows) {
      OneMoreHonest(read, read.view.checkout, kind);
    }
  }

  /** A hint at the root re-reads everything. */
  lemma WholeTree(checkout: Tree, live: Tree)
    ensures Captured(checkout, live, [Modified([])]) == live
  {
    OneHint(Modified([]));
    forall p ensures Get(Captured(checkout, live, [Modified([])]), p) == Get(live, p) {
      OverlayAt(checkout, live, {[]}, p);
      assert StartsWith(p, []);
      assert Below(p, {[]});
    }
    TreesAgree(Captured(checkout, live, [Modified([])]), live);
  }

  // -------------------------------------------------------------------------
  // Whole runs
  // -------------------------------------------------------------------------

  /** Starts a pipeline on a repository. */
  method Start(cfg: Config, stored: Tree, first: Rescan) returns (p: Pipeline)
    ensures fresh(p) && p.Valid() && p.started && p.cfg == cfg && !p.soiled && p.fault == None
    ensures p.Whole() == Started(cfg.rules, first)
  {
    p := new Pipeline(cfg, stored);
    var ok := p.Rebaseline(Baseline, first);
    p.started := true;
  }

  /** Any run of requests, each with an engine call that may fail: the states it
      goes through begin with the started pipeline and follow one another as the
      requests say.  Unless something that failed left an excluded path behind,
      the recorded generations hold none exactly when those handed in hold none. */
  method Run(cfg: Config, stored: Tree, first: Rescan, items: seq<Item>)
    returns (p: Pipeline, answers: seq<bool>, ghost states: seq<Status>)
    ensures fresh(p) && p.Valid() && p.cfg == cfg
    ensures IsRun(cfg, first, items, states) && p.Whole() == states[|items|]
    ensures |answers| == |items| && forall i :: 0 <= i < |items| && items[i].1 == None ==>
              answers[i] == Answers(cfg.rules, items[i].0, states[i])
    ensures AutoRowsAreNews(p.rows)
    ensures (forall i :: 0 <= i < |items| ==> items[i].1 == None || Untainted(cfg.rules, items[i])) ==> !p.soiled
    ensures !p.soiled ==> (RowsAreClean(p.rows, cfg.rules) <==> forall g :: g in p.guests ==> IsClean(g, cfg.rules))
  {
    p := Start(cfg, stored, first);
    answers, states := [], [p.Whole()];
    for i := 0 to |items|
      invariant fresh(p) && p.Valid() && p.started && p.cfg == cfg
      invariant |answers| == i && IsRun(cfg, first, items[..i], states) && p.Whole() == states[i]
      invariant forall k :: 0 <= k < i && items[k].1 == None ==>
                  answers[k] == Answers(cfg.rules, items[k].0, states[k])
      invariant (forall k :: 0 <= k < |items| ==> items[k].1 == None || Untainted(cfg.rules, items[k])) ==> !p.soiled
    {
      var ok := TakeItem(p, items[i]);
      RunGoesOn(cfg, first, items, states, i, p.Whole());
      answers, states := answers + [ok], states + [p.Whole()];
    }
    assert items[..|items|] == items;
    if !p.soiled {
      CleanExactlyWhenGuestsAre(p.rows, cfg.rules, p.guests);
    }
  }

  method TakeItem(p: Pipeline, item: Item) returns (ok: bool)
    requires p.Valid() && p.started
    modifies p
    ensures p.Valid() && p.started && Steps(p.cfg, item, old(p.Whole()), p.Whole())
    ensures item.1 == None ==> ok == Answers(p.cfg.rules, item.0, old(p.Whole())) && p.soiled == old(p.soiled)
    ensures Unspoilt(p.cfg.rules, item.0) && !Spoils(p.cfg.rules, item.1) && p.soiled ==> old(p.soiled)
  {
    p.fault := item.1;
    ok := p.Handle(item.0);
  }

  lemma RunGoesOn(cfg: Config, first: Rescan, items: seq<Item>, states: seq<Status>, i: nat, next: Status)
    requires i < |items| && IsRun(cfg, first, items[..i], states) && Steps(cfg, items[i], states[i], next)
    ensures IsRun(cfg, first, items[..i + 1], states + [next])
  {
    var more, all := items[..i + 1], states + [next];
    forall k | 0 <= k < |more| ensures Steps(cfg, more[k], all[k], all[k + 1]) {
      if k < i {
        assert Steps(cfg, items[..i][k], states[k], states[k + 1]);
      }
    }
  }

  // -------------------------------------------------------------------------
  // Failing calls
  // -------------------------------------------------------------------------

  /** A checkpoint whose snapshot, or the row for it, fails after the drain, and a
      quiet checkpoint after it, in any state: that hides captured work exactly
      when the drain, which may have replaced the watcher, left some that no
      marker names.  The comment on the code says the failure leaves the marker;
      it leaves one only where there was one. */
  method FailedSnapshotThenQuietCheckpoint(p: Pipeline, kind: Asked, rescan: Rescan, polls: seq<Poll>, failing: Fault,
      later: Rescan, quiet: seq<Poll>)
    requires p.Valid() && p.started && !p.shadowed && Quiet(p.cfg.rules, quiet)
    requires RowFails(p.cfg.rules, p.Whole().view, Some(failing), rescan, polls)
    modifies p
    ensures p.Valid() && p.rows != []
    ensures p.Whole() == Served(p.cfg, Request.Checkpoint(kind, later, quiet),
                                AfterFailedRow(p.cfg.rules, old(p.Whole()), rescan, polls))
    ensures !Honest(LastRow(p.Whole())) <==> Lost(BeforeRow(p.cfg.rules, old(p.Whole()), rescan, polls).view)
  {
    p.fault := Some(failing);
    var ok := p.HandleCheckpoint(kind, rescan, polls);
    ok := p.HandleCheckpoint(kind, later, quiet);
    FailedRowThenQuietCheckpoint(p.cfg, old(p.Whole()), kind, rescan, polls, later, quiet);
  }

  /** A checkpoint of a ready pipeline whose drain is cut short in a capture or a
      scrub, and an undisturbed one after it: the second records an excluded path
      exactly when the cut left one in the checkout, there is something to record,
      and nothing the watcher says by then asks for a scrub. */
  method CutShortThenCheckpoint(p: Pipeline, kind: Asked, rescan: Rescan, polls: seq<Poll>, cut: Fault,
      later: Rescan, next: seq<Poll>)
    requires p.Valid() && p.started && !p.shadowed && p.state == Ready && IsClean(p.lastGeneration, p.cfg.rules)
    requires CutsShort(p.cfg.rules, polls, cut.after) && !Breaks(p.cfg.rules, next)
    modifies p
    ensures p.Valid() && p.rows != []
    ensures p.Whole() == Served(p.cfg, Request.Checkpoint(kind, later, next), AfterCut(old(p.Whole()), cut.debris))
    ensures !IsClean(LastRow(p.Whole()).generation, p.cfg.rules) <==>
            !IsClean(cut.debris, p.cfg.rules) && Worth(p.cfg.rules, old(p.Whole()).view, next) &&
            !Scrubs(p.cfg.rules, next)
  {
    p.fault := Some(cut);
    var ok := p.HandleCheckpoint(kind, rescan, polls);
    ok := p.HandleCheckpoint(kind, later, next);
    DebrisIsRecorded(p.cfg, old(p.Whole()), cut.debris, kind, later, next);
  }
}
