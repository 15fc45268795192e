/** The path-keyed difference of two generations: a paged walk of each tree, a
    comparison record by record, and what the list it gives is good for. */
module Diffs {
  import opened Paths
  import opened Trees
  import opened Planner

  /** One directory entry: what it is, and its mode and times as one value. */
  datatype Record = Record(node: Node, metadata: nat)

  type Generation = map<Path, Record>

  datatype FileKind = Directory | File | Link

  datatype ChangeKind = Added | Removed | Modified | MetadataOnly

  datatype FileChange = FileChange(path: Path, change: ChangeKind, kind: FileKind)

  const PAGE_ENTRIES: nat := 1024

  function KindOf(n: Node): FileKind {
    match n
    case Dir => Directory
    case Regular(_) => File
    case Symlink(_) => Link
  }

  /** The content of a generation, metadata left aside. */
  function Content(g: Generation): Tree {
    map p | p in g :: g[p].node
  }

  predicate IsChild(q: Path, dir: Path) {
    |q| == |dir| + 1 && StartsWith(q, dir)
  }

  function Children(g: Generation, dir: Path): set<Path> {
    set q | q in g && IsChild(q, dir)
  }

  // -------------------------------------------------------------------------
  // Listing a directory page by page
  // -------------------------------------------------------------------------

  predicate Later(after: Option<Path>, q: Path) {
    after == None || PathLess(after.value, q)
  }

  /** The entries right after the cursor, in order, and whether any are left. */
  ghost predicate IsPage(g: Generation, dir: Path, after: Option<Path>, page: seq<Path>, more: bool) {
    Ascending(page) && |page| <= PAGE_ENTRIES &&
    (forall q :: q in page ==> q in Children(g, dir) && Later(after, q)) &&
    (forall q :: q in Children(g, dir) && Later(after, q) && q !in page ==>
       more && page != [] && PathLess(page[|page| - 1], q))
  }

  method Least(s: set<Path>) returns (least: Path)
    requires s != {}
    ensures least in s && forall q :: q in s && q != least ==> PathLess(least, q)
  {
    least :| least in s;
    var left := s - {least};
    while left != {}
      invariant left <= s && least in s && least !in left
      invariant forall q :: q in s - left && q != least ==> PathLess(least, q)
      decreases |left|
    {
      var q :| q in left;
      PathOrder(q, least);
      if PathLess(q, least) {
        forall r | r in s - left && r != least ensures PathLess(q, r) {
          PathTransitive(q, least, r);
        }
        least := q;
      }
      left := left - {q};
    }
  }

  method ListPage(g: Generation, dir: Path, after: Option<Path>) returns (page: seq<Path>, more: bool)
    ensures IsPage(g, dir, after, page, more)
  {
    var rest := set q | q in Children(g, dir) && Later(after, q);
    page := [];
    while |page| < PAGE_ENTRIES && rest != {}
      invariant Ascending(page) && |page| <= PAGE_ENTRIES
      invariant forall q :: q in Children(g, dir) && Later(after, q) <==> q in page || q in rest
      invariant forall p, q :: p in page && q in rest ==> PathLess(p, q)
      decreases |rest|
    {
      var q := Least(rest);
      AscendingAppend(page, q);
      PathOrder(q, q);
      page := page + [q];
      rest := rest - {q};
    }
    more := rest != {};
  }

  // -------------------------------------------------------------------------
  // The walk
  // -------------------------------------------------------------------------

  function Restrict(g: Generation, s: set<Path>): Generation {
    map p | p in g && p in s :: g[p]
  }

  /** The subdirectories of `dir` among `seen`, each once. */
  ghost predicate ListsDirs(g: Generation, seen: set<Path>, dirs: seq<Path>) {
    Once(dirs) && forall q :: q in dirs <==> q in seen && q in g && g[q].node == Dir
  }

  lemma OneMoreFound(found: Generation, g: Generation, seen: set<Path>, q: Path)
    requires q in g
    ensures (found + Restrict(g, seen))[q := g[q]] == found + Restrict(g, seen + {q})
  {}

  lemma OneMoreListed(g: Generation, seen: set<Path>, dirs: seq<Path>, q: Path)
    requires ListsDirs(g, seen, dirs) && q in g && q !in seen
    ensures ListsDirs(g, seen + {q}, if g[q].node == Dir then dirs + [q] else dirs)
  {
    var more := if g[q].node == Dir then dirs + [q] else dirs;
    forall i | 0 <= i < |dirs| ensures dirs[i] != q {
      assert dirs[i] in dirs;
    }
  }

  lemma NoRepeats(page: seq<Path>, i: nat)
    requires Ascending(page) && i < |page|
    ensures page[i] !in Members(page[..i]) && Members(page[..i + 1]) == Members(page[..i]) + {page[i]}
  {
    forall j | 0 <= j < i ensures page[j] != page[i] {
      PathOrder(page[j], page[i]);
    }
    assert page[..i + 1] == page[..i] + [page[i]];
  }

  /** Reads one page into the result and the queue. */
  method TakePage(g: Generation, ghost seen: set<Path>, page: seq<Path>, found: Generation, dirs: seq<Path>)
    returns (more: Generation, moreDirs: seq<Path>)
    requires Ascending(page) && (forall q :: q in page ==> q in g && q !in seen)
    requires ListsDirs(g, seen, dirs)
    ensures more == found + Restrict(g, Members(page))
    ensures ListsDirs(g, seen + Members(page), moreDirs)
  {
    more, moreDirs := found, dirs;
    assert seen + Members(page[..0]) == seen;
    for i := 0 to |page|
      invariant more == found + Restrict(g, Members(page[..i]))
      invariant ListsDirs(g, seen + Members(page[..i]), moreDirs)
    {
      var q := page[i];
      assert q in page;
      NoRepeats(page, i);
      OneMoreFound(found, g, Members(page[..i]), q);
      OneMoreListed(g, seen + Members(page[..i]), moreDirs, q);
      assert seen + Members(page[..i + 1]) == seen + Members(page[..i]) + {q};
      more := more[q := g[q]];
      if g[q].node == Dir {
        moreDirs := moreDirs + [q];
      }
    }
    assert page[..|page|] == page;
  }

  /** `seen` is the part of the directory up to the cursor. */
  ghost predicate UpTo(g: Generation, dir: Path, after: Option<Path>, seen: set<Path>) {
    seen <= Children(g, dir) && forall q :: q in Children(g, dir) ==> (q in seen <==> !Later(after, q))
  }

  /** What was read is exactly what lies up to the end of the page. */
  lemma PageAdvances(g: Generation, dir: Path, after: Option<Path>, seen: set<Path>, page: seq<Path>, left: bool)
    requires IsPage(g, dir, after, page, left) && UpTo(g, dir, after, seen)
    ensures forall q :: q in page ==> q in g && q !in seen
    ensures var next := seen + Members(page);
            if page == [] || !left then next == Children(g, dir)
            else UpTo(g, dir, Some(page[|page| - 1]), next) && Children(g, dir) - next < Children(g, dir) - seen
  {
    var next := seen + Members(page);
    if page != [] && left {
      var last := page[|page| - 1];
      assert last in page;
      forall q | q in Children(g, dir) ensures q in next <==> !PathLess(last, q) {
        if q in seen {
          if PathLess(last, q) {
            PathTransitive(after.value, last, q);
          }
        } else if q in page {
          var i :| 0 <= i < |page| && page[i] == q;
          PathOrder(q, last);
        }
      }
      assert last in Children(g, dir) - seen;
    }
  }

  lemma MoreFound(found: Generation, g: Generation, seen: set<Path>, read: set<Path>)
    ensures found + Restrict(g, seen) + Restrict(g, read) == found + Restrict(g, seen + read)
  {}

  /** Reads a whole directory, page after page. */
  method WalkDirectory(g: Generation, dir: Path, found: Generation) returns (more: Generation, dirs: seq<Path>)
    ensures more == found + Restrict(g, Children(g, dir))
    ensures ListsDirs(g, Children(g, dir), dirs)
  {
    more, dirs := found, [];
    var after: Option<Path> := None;
    ghost var seen: set<Path> := {};
    while true
      invariant UpTo(g, dir, after, seen)
      invariant more == found + Restrict(g, seen)
      invariant ListsDirs(g, seen, dirs)
      decreases Children(g, dir) - seen
    {
      var page, left := ListPage(g, dir, after);
      PageAdvances(g, dir, after, seen, page, left);
      MoreFound(found, g, seen, Members(page));
      more, dirs := TakePage(g, seen, page, more, dirs);
      seen := seen + Members(page);
      if page == [] || !left {
        return;
      }
      after := Some(page[|page| - 1]);
    }
  }

  /** The directories found are the ones read and, once each, the ones queued. */
  ghost predicate Frontier(read: set<Path>, queue: seq<Path>, found: Generation) {
    Once(queue) && (forall d :: d in queue ==> d !in read) &&
    (forall d :: d in read || d in queue <==> d == [] || (d in found && found[d].node == Dir))
  }

  /** What was found is what hangs in the directories already read. */
  ghost predicate Faithful(g: Generation, read: set<Path>, found: Generation) {
    (forall p :: p in found ==> p in g && found[p] == g[p]) &&
    (forall p :: p in g && p != [] ==> (p in found <==> p[..|p| - 1] in read))
  }

  lemma ChildOf(p: Path, dir: Path)
    requires p != []
    ensures IsChild(p, dir) <==> p[..|p| - 1] == dir
  {
    if IsChild(p, dir) {
      assert p[..|dir|] == dir;
    }
  }

  lemma FoundMore(g: Generation, read: set<Path>, dir: Path, found: Generation)
    requires Faithful(g, read, found)
    ensures Faithful(g, read + {dir}, found + Restrict(g, Children(g, dir)))
  {
    var more := found + Restrict(g, Children(g, dir));
    forall p | p in g && p != [] ensures p in more <==> p[..|p| - 1] in read + {dir} {
      ChildOf(p, dir);
    }
  }

  lemma QueueAdvances(g: Generation, read: set<Path>, rest: seq<Path>, dir: Path, found: Generation, dirs: seq<Path>)
    requires [] !in g && Frontier(read, rest + [dir], found) && Faithful(g, read, found)
    requires ListsDirs(g, Children(g, dir), dirs)
    ensures Frontier(read + {dir}, rest + dirs, found + Restrict(g, Children(g, dir)))
  {
    var queue, next, more := rest + [dir], rest + dirs, found + Restrict(g, Children(g, dir));
    assert queue[|rest|] == dir && dir in queue;
    forall q | q in rest ensures q in queue && q != dir {
      var i :| 0 <= i < |rest| && rest[i] == q;
      assert queue[i] == q;
    }
    forall q | q in dirs ensures q !in found && q !in queue && q !in read && q != dir {
      ChildOf(q, dir);
    }
    forall i, j | 0 <= i < j < |next| ensures next[i] != next[j] {
      if j < |rest| {
        assert queue[i] != queue[j];
      } else if i < |rest| {
        assert next[i] in rest && next[j] in dirs;
      }
    }
    forall d ensures d in read + {dir} || d in next <==> d == [] || (d in more && more[d].node == Dir) {
      assert d in queue <==> d in rest || d == dir;
      assert d in next <==> d in rest || d in dirs;
    }
  }

  /** With nothing left to read, everything was found. */
  lemma {:induction false} WalkedEverything(g: Generation, read: set<Path>, found: Generation, p: Path)
    requires WellFormed(Content(g)) && Frontier(read, [], found) && Faithful(g, read, found) && p in g
    ensures p in found
    decreases |p|
  {
    var up := p[..|p| - 1];
    if up != [] {
      assert ProperAncestor(up, p);
      assert Content(g)[up] == Dir;
      WalkedEverything(g, read, found, up);
    }
  }

  /** The walk finds every entry, and with it exactly the generation. */
  method Walk(g: Generation) returns (found: Generation)
    requires WellFormed(Content(g))
    ensures found == g
  {
    found := map[];
    var queue: seq<Path> := [[]];
    ghost var read: set<Path> := {};
    while queue != []
      invariant Frontier(read, queue, found) && Faithful(g, read, found) && read <= g.Keys + {[]}
      decreases (g.Keys + {[]}) - read
    {
      var rest, dir := queue[..|queue| - 1], queue[|queue| - 1];
      assert queue == rest + [dir];
      assert dir in queue;
      var dirs;
      ghost var before := found;
      found, dirs := WalkDirectory(g, dir, found);
      QueueAdvances(g, read, rest, dir, before, dirs);
      FoundMore(g, read, dir, before);
      queue := rest + dirs;
      read := read + {dir};
    }
    forall p | p in g ensures p in found {
      WalkedEverything(g, read, found, p);
    }
  }

  // -------------------------------------------------------------------------
  // The difference
  // -------------------------------------------------------------------------

  /** What happened to a path, if anything. */
  function ChangeAt(before: Generation, after: Generation, p: Path): Option<FileChange> {
    if p in before then
      if p !in after then Some(FileChange(p, Removed, KindOf(before[p].node)))
      else if after[p] == before[p] then None
      else if after[p].node == before[p].node then Some(FileChange(p, MetadataOnly, KindOf(after[p].node)))
      else Some(FileChange(p, Modified, KindOf(after[p].node)))
    else if p in after then Some(FileChange(p, Added, KindOf(after[p].node)))
    else None
  }

  ghost predicate ByPath(changes: seq<FileChange>) {
    forall i, j :: 0 <= i < j < |changes| ==> PathLess(changes[i].path, changes[j].path)
  }

  /** Every change outside `.git`, once, in path order, and nothing else. */
  ghost predicate IsDiff(before: Generation, after: Generation, changes: seq<FileChange>) {
    ByPath(changes) &&
    forall c :: c in changes <==> !IsGitInternal(c.path) && ChangeAt(before, after, c.path) == Some(c)
  }

  /** One insertion of the final sort. */
  method InsertByPath(changes: seq<FileChange>, c: FileChange) returns (more: seq<FileChange>)
    requires ByPath(changes) && forall d :: d in changes ==> d.path != c.path
    ensures ByPath(more) && forall d :: d in more <==> d in changes || d == c
  {
    var i := 0;
    while i < |changes| && PathLess(changes[i].path, c.path)
      invariant 0 <= i <= |changes|
      invariant forall k :: 0 <= k < i ==> PathLess(changes[k].path, c.path)
    {
      i := i + 1;
    }
    more := changes[..i] + [c] + changes[i..];
    forall k | i <= k < |changes| ensures PathLess(c.path, changes[k].path) {
      assert changes[k] in changes && changes[i] in changes;
      PathOrder(changes[i].path, c.path);
      if k > i {
        PathTransitive(c.path, changes[i].path, changes[k].path);
      }
    }
    SpliceMembers(changes, i, c);
    assert forall k :: 0 <= k < |more| ==>
      more[k] == if k < i then changes[k] else if k == i then c else changes[k - 1];
  }

  lemma SpliceMembers(changes: seq<FileChange>, i: nat, c: FileChange)
    requires i <= |changes|
    ensures forall d :: d in changes[..i] + [c] + changes[i..] <==> d in changes || d == c
  {
    assert changes == changes[..i] + changes[i..];
  }

  method SortByPath(changes: seq<FileChange>) returns (sorted: seq<FileChange>)
    requires forall i, j :: 0 <= i < j < |changes| ==> changes[i].path != changes[j].path
    ensures ByPath(sorted) && forall c :: c in sorted <==> c in changes
  {
    sorted := [];
    for i := 0 to |changes|
      invariant ByPath(sorted) && forall c :: c in sorted <==> c in changes[..i]
    {
      assert changes[..i + 1] == changes[..i] + [changes[i]];
      sorted := InsertByPath(sorted, changes[i]);
    }
    assert changes[..|changes|] == changes;
  }

  /** Changes at the paths of `done`, each once. */
  ghost predicate Lists(before: Generation, after: Generation, done: set<Path>, changes: seq<FileChange>) {
    (forall i, j :: 0 <= i < j < |changes| ==> changes[i].path != changes[j].path) &&
    forall c :: c in changes <==> c.path in done && !IsGitInternal(c.path) && ChangeAt(before, after, c.path) == Some(c)
  }

  lemma ListsOneMore(before: Generation, after: Generation, done: set<Path>, changes: seq<FileChange>, p: Path)
    requires Lists(before, after, done, changes) && p !in done
    ensures var c := ChangeAt(before, after, p);
            Lists(before, after, done + {p}, if c.Some? && !IsGitInternal(p) then changes + [c.value] else changes)
  {
    var c := ChangeAt(before, after, p);
    var more := if c.Some? && !IsGitInternal(p) then changes + [c.value] else changes;
    forall i | 0 <= i < |changes| ensures changes[i].path != p {
      assert changes[i] in changes;
    }
    forall d
      ensures d in more <==>
        d.path in done + {p} && !IsGitInternal(d.path) && ChangeAt(before, after, d.path) == Some(d)
    {
      assert d in more <==> d in changes || (c.Some? && !IsGitInternal(p) && d == c.value);
    }
  }

  /** Compares the records at `paths`, `.git` aside. */
  method Compare(was: Generation, now: Generation, paths: set<Path>, ghost done: set<Path>, changes: seq<FileChange>)
    returns (more: seq<FileChange>)
    requires Lists(was, now, done, changes) && paths !! done
    ensures Lists(was, now, done + paths, more)
  {
    more := changes;
    var todo := paths;
    assert done + (paths - todo) == done;
    while todo != {}
      invariant todo <= paths
      invariant Lists(was, now, done + (paths - todo), more)
      decreases |todo|
    {
      var p :| p in todo;
      ListsOneMore(was, now, done + (paths - todo), more, p);
      assert done + (paths - (todo - {p})) == done + (paths - todo) + {p};
      var c := ChangeAt(was, now, p);
      if c.Some? && !IsGitInternal(p) {
        more := more + [c.value];
      }
      todo := todo - {p};
    }
    assert paths - todo == paths;
  }

  /** Compares two generations: first what the older one holds, then what only
      the newer one does. */
  method Diff(before: Generation, after: Generation) returns (changes: seq<FileChange>)
    requires WellFormed(Content(before)) && WellFormed(Content(after))
    ensures IsDiff(before, after, changes)
  {
    if before == after {
      return [];
    }
    var was := Walk(before);
    var now := Walk(after);
    changes := Compare(was, now, was.Keys, {}, []);
    changes := Compare(was, now, now.Keys - was.Keys, {} + was.Keys, changes);
    changes := SortByPath(changes);
  }

  // -------------------------------------------------------------------------
  // What the difference is good for
  // -------------------------------------------------------------------------

  function Mirrored(change: ChangeKind): ChangeKind {
    match change
    case Added => Removed
    case Removed => Added
    case _ => change
  }

  ghost predicate ListsPath(changes: seq<FileChange>, p: Path) {
    exists i :: 0 <= i < |changes| && changes[i].path == p
  }

  lemma ListedExactly(before: Generation, after: Generation, changes: seq<FileChange>, p: Path)
    requires IsDiff(before, after, changes)
    ensures ListsPath(changes, p) <==> !IsGitInternal(p) && ChangeAt(before, after, p).Some?
  {
    if ListsPath(changes, p) {
      var i :| 0 <= i < |changes| && changes[i].path == p;
      assert changes[i] in changes;
    }
    if !IsGitInternal(p) && ChangeAt(before, after, p).Some? {
      assert ChangeAt(before, after, p).value in changes;
    }
  }

  /** The difference is empty exactly when the generations agree outside
      `.git`, metadata included. */
  lemma EmptyDiffExactly(before: Generation, after: Generation, changes: seq<FileChange>)
    requires IsDiff(before, after, changes)
    ensures changes == [] <==>
            forall p :: !IsGitInternal(p) ==>
              (p in before <==> p in after) && (p in before && p in after ==> before[p] == after[p])
  {
    if changes == [] {
      forall p | !IsGitInternal(p)
        ensures (p in before <==> p in after) && (p in before && p in after ==> before[p] == after[p])
      {
        ListedExactly(before, after, changes, p);
      }
    } else {
      assert changes[0] in changes;
    }
  }

  /** A path is listed exactly when it is outside `.git` and its records differ, and
      then by one change. */
  lemma ListedOnce(before: Generation, after: Generation, changes: seq<FileChange>, p: Path)
    requires IsDiff(before, after, changes)
    ensures (exists c :: c in changes && c.path == p) <==>
            !IsGitInternal(p) && ((p in before && p in after) ==> before[p] != after[p]) && (p in before || p in after)
    ensures forall c, d :: c in changes && d in changes && c.path == p && d.path == p ==> c == d
  {
    if !IsGitInternal(p) && ChangeAt(before, after, p).Some? {
      assert ChangeAt(before, after, p).value in changes;
    }
  }

  /** What a listed change says happened did happen: the path came, went, kept its
      content under another record, or changed it; and its kind is that of the
      newer record, or of the last one where there is none. */
  lemma ChangesSayWhatHappened(before: Generation, after: Generation, changes: seq<FileChange>, c: FileChange)
    requires IsDiff(before, after, changes) && c in changes
    ensures c.change == Added <==> c.path !in before && c.path in after
    ensures c.change == Removed <==> c.path in before && c.path !in after
    ensures c.change == MetadataOnly <==> (c.path in before && c.path in after && before[c.path] != after[c.path] &&
                                           before[c.path].node == after[c.path].node)
    ensures c.change == Modified <==> (c.path in before && c.path in after && before[c.path].node != after[c.path].node)
    ensures c.path in before || c.path in after
    ensures var node := if c.path in after then after[c.path].node else before[c.path].node;
            (c.kind == Directory <==> node.Dir?) && (c.kind == File <==> node.Regular?) &&
            (c.kind == Link <==> node.Symlink?)
  {
    assert ChangeAt(before, after, c.path) == Some(c);
  }

  /** The content changes, metadata ones set aside, are the paths a merge plan
      starts from. */
  lemma ContentChangesAreChanged(before: Generation, after: Generation, changes: seq<FileChange>, p: Path)
    requires IsDiff(before, after, changes)
    ensures (exists c :: c in changes && c.path == p && c.change != MetadataOnly) <==>
            Changed(Content(before), Content(after), p)
  {
    if Changed(Content(before), Content(after), p) {
      var c := ChangeAt(before, after, p);
      assert c.value in changes;
    }
  }

  /** Reading the difference backwards gives the difference the other way. */
  lemma DiffMirrors(before: Generation, after: Generation, forth: seq<FileChange>, back: seq<FileChange>)
    requires IsDiff(before, after, forth) && IsDiff(after, before, back)
    ensures |forth| == |back|
    ensures forall i :: 0 <= i < |forth| ==>
              back[i].path == forth[i].path && back[i].change == Mirrored(forth[i].change)
  {
    var ps, qs := PathsOf(forth), PathsOf(back);
    forall p ensures p in ps <==> p in qs {
      ListedExactly(before, after, forth, p);
      ListedExactly(after, before, back, p);
    }
    AscendingIsCanonical(ps, qs);
    forall i | 0 <= i < |forth| ensures back[i].path == forth[i].path && back[i].change == Mirrored(forth[i].change) {
      assert ps[i] == qs[i];
      assert forth[i] in forth && back[i] in back;
    }
  }

  function PathsOf(changes: seq<FileChange>): (ps: seq<Path>)
    ensures |ps| == |changes| && forall i :: 0 <= i < |ps| ==> ps[i] == changes[i].path
    ensures forall p :: p in ps <==> ListsPath(changes, p)
  {
    seq(|changes|, i requires 0 <= i < |changes| => changes[i].path)
  }

  /** Carrying over the listed records, and nothing else, turns the one
      generation into the other outside `.git`. */
  lemma ListedRecordsSuffice(before: Generation, after: Generation, changes: seq<FileChange>, p: Path)
    requires IsDiff(before, after, changes) && !IsGitInternal(p)
    ensures var patched := Patched(before, after, changes);
            (p in patched <==> p in after) && (p in after && p in patched ==> patched[p] == after[p])
  {
    ListedExactly(before, after, changes, p);
    PathsOfIsListed(changes, p);
  }

  lemma PathsOfIsListed(changes: seq<FileChange>, p: Path)
    ensures p in PathsOf(changes) <==> ListsPath(changes, p)
  {}

  function Patched(before: Generation, after: Generation, changes: seq<FileChange>): Generation {
    (map p | p in before && p !in PathsOf(changes) :: before[p]) + (map p | p in after &&
      p in PathsOf(changes) :: after[p])
  }
}
