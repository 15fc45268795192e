/** A rewind from end to end: the pipeline records the working tree, the journaled
    swap replaces it, and the pipeline records what it finds then. */
module RewindRecords {
  import opened Paths
  import opened Trees
  import opened Carrying
  import opened Rewind
  import opened Exclude
  import opened Serving
  import opened Pipelines

  /** What is recorded of a restored tree is the target, with the directories on
      the way to the excluded files that were carried over. */
  lemma RestoredIsRecorded(rules: Rules, target: Tree, live: Tree, next: Tree, p: Path)
    requires IsClean(target, rules) && IsRewound(next, target, rules, live)
    ensures Get(Scrubbed(next, rules), p) ==
            if AboveLiveRule(rules, live, p) && !IsExcluded(rules, p) then Some(Dir) else Get(target, p)
  {
    if UnderLiveRule(rules, live, p) {
      var c :| c in rules && c in live && StartsWith(p, c);
      var i :| 0 <= i < |rules| && rules[i] == c;
      assert IsExcluded(rules, p);
    }
  }

  /** So a rewind to a recorded generation records that generation again exactly
      when every directory on the way to a carried file is in it. */
  lemma RecordsTargetExactlyWhen(rules: Rules, target: Tree, live: Tree, next: Tree)
    requires IsClean(target, rules) && IsRewound(next, target, rules, live)
    ensures Scrubbed(next, rules) == target <==>
            forall p :: AboveLiveRule(rules, live, p) && !IsExcluded(rules, p) ==> Get(target, p) == Some(Dir)
  {
    forall p
      ensures Get(Scrubbed(next, rules), p) ==
              if AboveLiveRule(rules, live, p) && !IsExcluded(rules, p) then Some(Dir) else Get(target, p)
    {
      RestoredIsRecorded(rules, target, live, next, p);
    }
    if forall p :: AboveLiveRule(rules, live, p) && !IsExcluded(rules, p) ==> Get(target, p) == Some(Dir) {
      TreesAgree(Scrubbed(next, rules), target);
    }
  }

  /** A rewind that nothing disturbs: the tree as it was is on the timeline, the
      last generation is the target with those directories, and every excluded
      live file is where it was. */
  method RewindUndisturbed(p: Pipeline, host: Host, target: Tree, polls: seq<Poll>, ghost live: Tree)
    returns (ok: bool)
    requires p.Valid() && p.started && p.fault == None && !Breaks(p.cfg.rules, polls)
    requires host.disk == Disk(Some(live), host.disk.tmp, None, None) && host.alive && host.broken == {}
    requires WellFormed(live) && [] !in p.cfg.rules && IsClean(target, p.cfg.rules)
    requires SafeOrder(LiveRules(p.cfg.rules, live)) && CarryAll(live, target, LiveRules(p.cfg.rules, live)).2
    requires host.fuel >= RewindSteps(|LiveRules(p.cfg.rules, live)|)
    modifies p, host
    ensures ok && p.Valid() && p.state == Ready && host.disk.repo.Some?
    ensures OnTimeline(p.rows, Drained(p.cfg.rules, old(p.checkout), polls))
    ensures forall q :: Get(p.lastGeneration, q) ==
              if AboveLiveRule(p.cfg.rules, live, q) && !IsExcluded(p.cfg.rules, q) then Some(Dir)
              else Get(target, q)
    ensures IsRewound(host.disk.repo.value, target, p.cfg.rules, live)
    ensures forall q :: q in live && IsExcluded(p.cfg.rules, q) ==> Get(host.disk.repo.value, q) == Some(live[q])
  {
    ghost var before := p.Whole();
    ghost var next, cleared;
    ok, next, cleared := host.Execute(target, p.cfg.rules, live);
    var rescan := Rescan(host.disk.repo.value, [], map[]);
    RewindKeepsState(p.cfg.rules, before, polls, rescan);
    RewindLeaves(p.cfg.rules, before, polls, rescan);
    ok := p.Handle(Request.Rewind(polls, rescan, ok));
    forall q ensures Get(p.lastGeneration, q) ==
                     if AboveLiveRule(p.cfg.rules, live, q) && !IsExcluded(p.cfg.rules, q) then Some(Dir)
                     else Get(target, q)
    {
      RestoredIsRecorded(p.cfg.rules, target, live, next, q);
    }
  }
}
