/** The speculation cache: a table of runs keyed by what they answer, whose row
    ids are reused once rows are gone, and the runs in flight that hold them. */
module SpecCache {
  import opened Paths

  /** What identifies an answer: never a turn number, always generations. */
  datatype Key = Key(kind: string, before: string, after: string, scope: string, recipe: string)

  datatype RunState = Running | Ready | Failed | Timeout | Overflow | Cancelled | Orphaned

  datatype Outcome = Answer(body: string) | Failure(message: string) | TimedOut | Overflowed | Stopped

  datatype Row = Row(key: Key, state: RunState, started: int, finished: Option<int>, claimed: Option<int>,
                     claims: nat, body: Option<string>, bytes: nat, error: Option<string>)

  datatype Hit = Hit(body: string, bytes: nat, lead: int)

  type Table = map<int, Row>

  /** The unique index. */
  ghost predicate KeysAreUnique(t: Table) {
    forall i, j :: i in t && j in t && t[i].key == t[j].key ==> i == j
  }

  function StateOf(outcome: Outcome): RunState {
    match outcome
    case Answer(_) => Ready
    case Failure(_) => Failed
    case TimedOut => Timeout
    case Overflowed => Overflow
    case Stopped => Cancelled
  }

  // -------------------------------------------------------------------------
  // What each statement does to the table
  // -------------------------------------------------------------------------

  predicate Holds(row: Row, key: Key) {
    row.key == key && (row.state == Running || row.state == Ready)
  }

  /** Without the attempts at `key` that came to nothing. */
  function Cleared(t: Table, key: Key): Table {
    map i | i in t && (t[i].key == key ==> Holds(t[i], key)) :: t[i]
  }

  ghost predicate IsHeld(t: Table, key: Key) {
    exists i :: i in t && Holds(t[i], key)
  }

  /** The id the store gives the next row: one past the greatest in use. */
  ghost predicate IsNextId(t: Table, id: int) {
    if t == map[] then id == 1 else id - 1 in t && forall i :: i in t ==> i < id
  }

  function NewRow(key: Key, now: int): Row {
    Row(key, Running, now, None, None, 0, None, 0, None)
  }

  ghost predicate Begins(t: Table, key: Key, now: int, run: Option<int>, next: Table) {
    if IsHeld(t, key) then run == None && next == Cleared(t, key)
    else run.Some? && IsNextId(Cleared(t, key), run.value) && next == Cleared(t, key)[run.value := NewRow(key, now)]
  }

  function Settled(row: Row, outcome: Outcome, now: int): Row {
    var body := if outcome.Answer? then Some(outcome.body) else None;
    row.(state := StateOf(outcome), finished := Some(now), body := body,
         bytes := if outcome.Answer? then |outcome.body| else 0,
         error := if outcome.Failure? then Some(outcome.message) else None)
  }

  function Finished(t: Table, run: int, outcome: Outcome, now: int): Table {
    if run in t && t[run].state == Running then t[run := Settled(t[run], outcome, now)] else t
  }

  predicate Serves(row: Row, key: Key) {
    row.key == key && row.state == Ready && row.body.Some?
  }

  function HitOf(row: Row, now: int): Hit
    requires row.body.Some?
  {
    Hit(row.body.value, row.bytes, if row.finished.Some? then (now - row.finished.value) * 1000 else 0)
  }

  ghost predicate Claims(t: Table, key: Key, now: int, hit: Option<Hit>, next: Table) {
    if exists i :: i in t && Serves(t[i], key) then
      exists i :: i in t && Serves(t[i], key) && hit == Some(HitOf(t[i], now)) &&
                  next == t[i := t[i].(claimed := Some(now), claims := t[i].claims + 1)]
    else hit == None && next == t
  }

  function Swept(t: Table, now: int): Table {
    map i | i in t :: if t[i].state == Running then t[i].(state := Orphaned, finished := Some(now)) else t[i]
  }

  function Done(t: Table): set<int> {
    set i | i in t && t[i].state != Running
  }

  /** Nothing in flight is dropped, everything past its time is, at most
      `maxRows` finished rows stay, and of those in time only the oldest go, and
      no more than needed. */
  ghost predicate Collects(t: Table, cutoff: int, maxRows: nat, next: Table) {
    (forall i :: i in next ==> i in t && next[i] == t[i]) &&
    (forall i :: i in t && t[i].state == Running ==> i in next) &&
    (forall i :: i in Done(next) ==> t[i].started >= cutoff) &&
    |Done(next)| <= maxRows &&
    (forall i :: i in t && i !in next && t[i].started >= cutoff ==>
       |Done(next)| == maxRows && forall j :: j in Done(next) ==> t[j].started >= t[i].started)
  }

  // -------------------------------------------------------------------------
  // The store
  // -------------------------------------------------------------------------

  class SpecStore {
    var rows: Table

    constructor ()
      ensures rows == map[]
    {
      rows := map[];
    }

    method NextId() returns (id: int)
      ensures IsNextId(rows, id)
    {
      id := 1;
      var left := rows.Keys;
      while |left| > 0
        invariant left <= rows.Keys
        invariant if left == rows.Keys then id == 1 else id - 1 in rows && id - 1 !in left
        invariant forall i :: i in rows && i !in left ==> i < id
        decreases |left|
      {
        ghost var any := Member(left);
        var i :| i in left;
        if left == rows.Keys || i >= id {
          id := i + 1;
        }
        left := left - {i};
      }
    }

    /** Reserves a key; None when it is answered or being answered. */
    method Begin(key: Key, now: int) returns (run: Option<int>)
      modifies this
      ensures Begins(old(rows), key, now, run, rows)
    {
      rows := map i | i in rows && (rows[i].key == key ==> Holds(rows[i], key)) :: rows[i];
      assert rows == Cleared(old(rows), key);
      HeldIfCleared(old(rows), key);
      if exists i :: i in rows && rows[i].key == key {
        return None;
      }
      var id := NextId();
      rows := rows[id := NewRow(key, now)];
      run := Some(id);
    }

    /** Records how a run ended, once. */
    method Finish(run: int, outcome: Outcome, now: int)
      modifies this
      ensures rows == Finished(old(rows), run, outcome, now)
    {
      if run in rows && rows[run].state == Running {
        rows := rows[run := Settled(rows[run], outcome, now)];
      }
    }

    /** Serves an answer that is ready for exactly this key. */
    method Claim(key: Key, now: int) returns (hit: Option<Hit>)
      modifies this
      ensures Claims(old(rows), key, now, hit, rows)
    {
      hit := None;
      if exists i :: i in rows && Serves(rows[i], key) {
        var i :| i in rows && Serves(rows[i], key);
        hit := Some(HitOf(rows[i], now));
        rows := rows[i := rows[i].(claimed := Some(now), claims := rows[i].claims + 1)];
      }
    }

    /** Marks what a dead daemon left running. */
    method SweepOrphans(now: int) returns (swept: nat)
      modifies this
      ensures rows == Swept(old(rows), now) && swept == |old(rows).Keys - Done(old(rows))|
    {
      swept := |set i | i in rows && rows[i].state == Running|;
      assert (set i | i in rows && rows[i].state == Running) == rows.Keys - Done(rows);
      rows := map i | i in rows :: if rows[i].state == Running then rows[i].(state := Orphaned,
          finished := Some(now)) else rows[i];
    }

    /** The finished run that started first. */
    method Oldest() returns (id: int)
      requires |Done(rows)| > 0
      ensures id in Done(rows) && forall j :: j in Done(rows) ==> rows[id].started <= rows[j].started
    {
      var left := set i | i in rows && rows[i].state != Running;
      assert left == Done(rows);
      ghost var any := Member(left);
      id :| id in left;
      left := left - {id};
      while |left| > 0
        invariant left <= Done(rows) && id in Done(rows)
        invariant forall j :: j in Done(rows) && j !in left ==> rows[id].started <= rows[j].started
        decreases |left|
      {
        ghost var any := Member(left);
        var i :| i in left;
        if rows[i].started < rows[id].started {
          id := i;
        }
        left := left - {i};
      }
    }

    /** Drops finished runs past their time, then the oldest beyond `maxRows`. */
    method Gc(cutoff: int, maxRows: nat) returns (removed: nat)
      modifies this
      ensures Collects(old(rows), cutoff, maxRows, rows)
      ensures removed == |old(rows)| - |rows|
    {
      var before := rows;
      rows := map i | i in rows && (rows[i].state == Running || rows[i].started >= cutoff) :: rows[i];
      FewerRows(before, rows);
      removed := |before| - |rows|;
      while |set i | i in rows && rows[i].state != Running| > maxRows
        invariant Trimmed(before, cutoff, maxRows, rows)
        invariant removed == |before| - |rows|
        decreases |rows|
      {
        assert (set i | i in rows && rows[i].state != Running) == Done(rows);
        var id := Oldest();
        OneTrimmed(before, cutoff, maxRows, rows, id);
        rows := rows - {id};
        removed := removed + 1;
      }
      assert (set i | i in rows && rows[i].state != Running) == Done(rows);
    }
  }

  lemma HeldIfCleared(t: Table, key: Key)
    ensures IsHeld(t, key) <==> exists i :: i in Cleared(t, key) && Cleared(t, key)[i].key == key
  {
    if i :| i in t && Holds(t[i], key) {
      assert i in Cleared(t, key);
    }
    if i :| i in Cleared(t, key) && Cleared(t, key)[i].key == key {
      assert Holds(t[i], key);
    }
  }

  lemma Member<T>(s: set<T>) returns (x: T)
    requires |s| > 0
    ensures x in s
  {
    x :| x in s;
  }

  lemma FewerRows(t: Table, s: Table)
    requires s.Keys <= t.Keys
    ensures |s| <= |t|
  {
    SubsetIsSmaller(s.Keys, t.Keys);
  }

  lemma {:induction false} SubsetIsSmaller(a: set<int>, b: set<int>)
    requires a <= b
    ensures |a| <= |b|
  {
    if |a| > 0 {
      var x := Member(a);
      SubsetIsSmaller(a - {x}, b - {x});
    }
  }

  /** Part way through the trim: what went was past its time or as old as
      anything left. */
  ghost predicate Trimmed(t: Table, cutoff: int, maxRows: nat, next: Table) {
    (forall i :: i in next ==> i in t && next[i] == t[i]) &&
    (forall i :: i in t && t[i].state == Running ==> i in next) &&
    (forall i :: i in Done(next) ==> t[i].started >= cutoff) &&
    (forall i :: i in t && i !in next && t[i].started >= cutoff ==>
       |Done(next)| >= maxRows && forall j :: j in Done(next) ==> t[j].started >= t[i].started)
  }

  lemma OneTrimmed(t: Table, cutoff: int, maxRows: nat, next: Table, id: int)
    requires Trimmed(t, cutoff, maxRows, next) && |Done(next)| > maxRows
    requires id in Done(next) && forall j :: j in Done(next) ==> next[id].started <= next[j].started
    ensures Trimmed(t, cutoff, maxRows, next - {id}) && |next - {id}| == |next| - 1
  {
    assert Done(next - {id}) == Done(next) - {id};
    assert (next - {id}).Keys == next.Keys - {id};
  }

  // -------------------------------------------------------------------------
  // Runs in flight
  // -------------------------------------------------------------------------

  datatype Run = Run(id: int, key: Key)

  /** The table, and the runs some process is still working on. */
  datatype World = World(rows: Table, live: set<Run>)

  datatype Event =
    | Begun(key: Key, now: int)
    | Ended(run: Run, outcome: Outcome, now: int)
    | EndedAgain(run: Run, outcome: Outcome, now: int)
    | Claimed(key: Key, now: int)
    | Collected(cutoff: int, maxRows: nat)
    | SweptUp(now: int)
    | Crashed

  /** One statement of one process; a run that ends well ends with the answer
      for its own key.  `EndedAgain` is a report about a run that was given up
      before, and whose row may be someone else's by now. */
  ghost predicate Step(answer: Key -> string, w: World, e: Event, v: World) {
    match e
    case Begun(key, now) =>
      exists run: Option<int> :: Begins(w.rows, key, now, run, v.rows) &&
        v.live == if run.Some? then w.live + {Run(run.value, key)} else w.live
    case Ended(run, outcome, now) =>
      run in w.live && (outcome.Answer? ==> outcome.body == answer(run.key)) &&
      v == World(Finished(w.rows, run.id, outcome, now), w.live - {run})
    case EndedAgain(run, outcome, now) =>
      (outcome.Answer? ==> outcome.body == answer(run.key)) &&
      v == World(Finished(w.rows, run.id, outcome, now), w.live)
    case Claimed(key, now) =>
      v.live == w.live && exists hit: Option<Hit> :: Claims(w.rows, key, now, hit, v.rows)
    case Collected(cutoff, maxRows) => v.live == w.live && Collects(w.rows, cutoff, maxRows, v.rows)
    case SweptUp(now) => v == World(Swept(w.rows, now), w.live)
    case Crashed => v == World(w.rows, {})
  }

  ghost predicate IsRun(answer: Key -> string, worlds: seq<World>, events: seq<Event>) {
    |worlds| == |events| + 1 && forall i :: 0 <= i < |events| ==> Step(answer, worlds[i], events[i], worlds[i + 1])
  }

  /** Whatever can be served is the answer for its key. */
  ghost predicate ServesAnswers(answer: Key -> string, t: Table) {
    forall i :: i in t && t[i].state == Ready ==> t[i].body == Some(answer(t[i].key))
  }

  /** Every run in flight still has its own row, marked as running. */
  ghost predicate RunsHoldTheirRows(w: World) {
    forall r :: r in w.live ==> r.id in w.rows && w.rows[r.id].key == r.key && w.rows[r.id].state == Running
  }

  ghost predicate Inv(answer: Key -> string, w: World) {
    KeysAreUnique(w.rows) && (forall i :: i in w.rows ==> i >= 1) &&
    ServesAnswers(answer, w.rows) && RunsHoldTheirRows(w)
  }

  /** No key has two runs in flight and no id two keys. */
  lemma RunsStayApart(answer: Key -> string, w: World, r: Run, s: Run)
    requires Inv(answer, w) && r in w.live && s in w.live
    ensures r.key == s.key || r.id == s.id ==> r == s
  {}

  /** A new run gets an id and a key no other run in flight has. */
  lemma NewRunsAreFresh(answer: Key -> string, w: World, key: Key, now: int, run: Option<int>, next: Table)
    requires Inv(answer, w) && Begins(w.rows, key, now, run, next) && run.Some?
    ensures forall r :: r in w.live ==> r.id != run.value && r.key != key
  {
    forall r | r in w.live ensures r.id != run.value && r.key != key {
      assert r.id in w.rows && Holds(w.rows[r.id], r.key);
      assert r.id in Cleared(w.rows, key);
    }
  }

  /** The events the invariant needs something of: a sweep finds nothing in
      flight, and a late report finds the row of its id not taken over by
      another run in flight, nor running for a key with another answer. */
  ghost predicate Harmless(answer: Key -> string, w: World, e: Event) {
    match e
    case SweptUp(_) => w.live == {}
    case EndedAgain(run, outcome, _) =>
      run.id in w.rows && w.rows[run.id].state == Running ==>
        (forall r :: r in w.live ==> r.id != run.id) &&
        (outcome.Answer? ==> answer(w.rows[run.id].key) == answer(run.key))
    case _ => true
  }

  lemma StepKeepsInv(answer: Key -> string, w: World, e: Event, v: World)
    requires Inv(answer, w) && Step(answer, w, e, v)
    requires Harmless(answer, w, e)
    ensures Inv(answer, v)
  {
    match e
    case Begun(key, now) =>
      var run: Option<int> :| Begins(w.rows, key, now, run, v.rows) &&
        v.live == if run.Some? then w.live + {Run(run.value, key)} else w.live;
      BeginKeepsInv(answer, w, key, now, run, v);
    case Ended(run, outcome, now) =>
      forall r | r in v.live ensures r.id != run.id {
        RunsStayApart(answer, w, r, run);
      }
    case _ =>
  }

  /** Those conditions are exact: a sweep or a late report that keeps the
      invariant is harmless. */
  lemma HarmlessExactlyWhenKept(answer: Key -> string, w: World, e: Event, v: World)
    requires Inv(answer, w) && Step(answer, w, e, v)
    ensures Inv(answer, v) <==> Harmless(answer, w, e)
  {
    if Harmless(answer, w, e) {
      StepKeepsInv(answer, w, e, v);
    } else if e.SweptUp? {
      var r :| r in w.live;
      assert v.rows[r.id].state == Orphaned;
    } else {
      assert e.EndedAgain? && e.run.id in w.rows && w.rows[e.run.id].state == Running;
      assert v.rows[e.run.id].state != Running;
    }
  }

  lemma BeginKeepsInv(answer: Key -> string, w: World, key: Key, now: int, run: Option<int>, v: World)
    requires Inv(answer, w) && Begins(w.rows, key, now, run, v.rows)
    requires v.live == if run.Some? then w.live + {Run(run.value, key)} else w.live
    ensures Inv(answer, v)
  {
    var kept := Cleared(w.rows, key);
    assert Inv(answer, World(kept, w.live));
    if run.Some? {
      NewRunsAreFresh(answer, w, key, now, run, v.rows);
      forall i | i in kept ensures kept[i].key != key && i != run.value {
        assert i in w.rows;
        assert !Holds(w.rows[i], key);
      }
    }
  }

  /** Over any run in which sweeps happen only when nothing is in flight and late
      reports find their rows not taken over, a claim returns nothing or the
      answer for its key. */
  lemma {:induction false} ClaimsAreAnswers(answer: Key -> string, worlds: seq<World>, events: seq<Event>, n: nat)
    requires IsRun(answer, worlds, events) && Inv(answer, worlds[0]) && n < |worlds|
    requires forall i :: 0 <= i < n ==> Harmless(answer, worlds[i], events[i])
    ensures Inv(answer, worlds[n])
    ensures forall key, now, hit: Option<Hit>, next :: Claims(worlds[n].rows, key, now, hit, next) ==>
              hit == None || hit.value.body == answer(key)
  {
    if n > 0 {
      ClaimsAreAnswers(answer, worlds, events, n - 1);
      StepKeepsInv(answer, worlds[n - 1], events[n - 1], worlds[n]);
    }
  }

  // -------------------------------------------------------------------------
  // Sweeping while something is in flight
  // -------------------------------------------------------------------------

  /** A key unlike `key`, and unlike the fillers before it. */
  function Filler(key: Key, n: nat): Key {
    key.(recipe := key.recipe + seq(n + 1, _ => '+'))
  }

  lemma FillersDiffer(key: Key, m: nat, n: nat)
    ensures Filler(key, n) != key
    ensures m != n ==> Filler(key, m) != Filler(key, n)
  {
    assert |Filler(key, n).recipe| == |key.recipe| + n + 1;
    assert |Filler(key, m).recipe| == |key.recipe| + m + 1;
  }

  /** A table of `n` running fillers. */
  function Filled(key: Key, n: nat): Table {
    map i: int | 1 <= i <= n :: NewRow(Filler(key, i), 0)
  }

  lemma FillsOneMore(key: Key, n: nat, next: Key)
    requires next == key || next == Filler(key, n + 1)
    ensures Begins(Filled(key, n), next, 0, Some(n + 1), Filled(key, n)[n + 1 := NewRow(next, 0)])
    ensures Filled(key, n)[n + 1 := NewRow(Filler(key, n + 1), 0)] == Filled(key, n + 1)
  {
    var t := Filled(key, n);
    forall i | i in t ensures t[i].key != next {
      FillersDiffer(key, i, n + 1);
      FillersDiffer(key, n + 1, i);
    }
    assert Cleared(t, next) == t;
    assert !IsHeld(t, next);
    if n > 0 {
      assert n in t;
    } else {
      assert t == map[];
    }
  }

  ghost predicate Ordinary(events: seq<Event>) {
    forall i :: 0 <= i < |events| ==> !events[i].SweptUp? && !events[i].EndedAgain?
  }

  /** `w` leads to `v` by ordinary events. */
  ghost predicate LeadsTo(answer: Key -> string, w: World, v: World) {
    exists worlds, events :: IsRun(answer, worlds, events) && Ordinary(events) && worlds[0] == w &&
      worlds[|events|] == v
  }

  lemma LeadsToItself(answer: Key -> string, w: World)
    ensures LeadsTo(answer, w, w)
  {
    var worlds, events: seq<Event> := [w], [];
    assert IsRun(answer, worlds, events) && Ordinary(events) && worlds[0] == w && worlds[|events|] == w;
  }

  lemma LeadsOneFurther(answer: Key -> string, w: World, v: World, e: Event, u: World)
    requires LeadsTo(answer, w, v) && Step(answer, v, e, u) && !e.SweptUp? && !e.EndedAgain?
    ensures LeadsTo(answer, w, u)
  {
    var worlds, events :| IsRun(answer, worlds, events) && Ordinary(events) && worlds[0] == w && worlds[|events|] == v;
    var more, longer := worlds + [u], events + [e];
    forall i | 0 <= i < |longer| ensures Step(answer, more[i], longer[i], more[i + 1]) {
      if i < |events| {
        assert Step(answer, worlds[i], events[i], worlds[i + 1]);
      }
    }
    assert IsRun(answer, more, longer) && Ordinary(longer) && more[0] == w && more[|longer|] == u;
  }

  lemma BeginLeads(answer: Key -> string, w: World, u: World, key: Key, id: int, next: Table)
    requires LeadsTo(answer, w, u) && Begins(u.rows, key, 0, Some(id), next)
    ensures LeadsTo(answer, w, World(next, u.live + {Run(id, key)}))
  {
    var run: Option<int> := Some(id);
    var v := World(next, u.live + {Run(id, key)});
    assert Begins(u.rows, key, 0, run, v.rows);
    assert Step(answer, u, Begun(key, 0), v);
    LeadsOneFurther(answer, w, u, Begun(key, 0), v);
  }

  lemma ClimbOne(answer: Key -> string, w: World, u: World, key: Key, n: nat)
    requires LeadsTo(answer, w, u) && u.rows == Filled(key, n)
    ensures LeadsTo(answer, w, World(Filled(key, n + 1), u.live + {Run(n + 1, Filler(key, n + 1))}))
  {
    FillsOneMore(key, n, Filler(key, n + 1));
    BeginLeads(answer, w, u, Filler(key, n + 1), n + 1, Filled(key, n)[n + 1 := NewRow(Filler(key, n + 1), 0)]);
  }

  /** Beginning enough other runs uses up any number of ids. */
  lemma {:induction false} Climb(answer: Key -> string, w: World, live: set<Run>, key: Key, n: nat) returns (v: World)
    requires LeadsTo(answer, w, World(map[], live))
    ensures LeadsTo(answer, w, v) && v.rows == Filled(key, n) && live <= v.live
  {
    if n == 0 {
      v := World(map[], live);
      assert Filled(key, 0) == map[];
    } else {
      var u := Climb(answer, w, live, key, n - 1);
      ClimbOne(answer, w, u, key, n - 1);
      v := World(Filled(key, n), u.live + {Run(n, Filler(key, n))});
    }
  }

  /** Once a run in flight has been swept, collecting everything and beginning
      other runs hands its id to another key; its answer then lands there. */
  lemma SweptRunAnswersAnotherKey(answer: Key -> string, w: World, now: int, run: Run, other: Key) returns (v: World)
    requires Inv(answer, w) && run in w.live && answer(other) != answer(run.key)
    ensures LeadsTo(answer, World(Swept(w.rows, now), w.live), v)
    ensures run.id in v.rows && Serves(v.rows[run.id], other) && v.rows[run.id].body == Some(answer(run.key))
  {
    var swept := World(Swept(w.rows, now), w.live);
    LeadsToItself(answer, swept);
    var empty := World(map[], w.live);
    assert Collects(swept.rows, 0, 0, map[]) by {
      assert Done(map[]) == {};
    }
    LeadsOneFurther(answer, swept, swept, Collected(0, 0), empty);
    var n := run.id - 1;
    var u := Climb(answer, swept, w.live, other, n);
    FillsOneMore(other, n, other);
    var begun := World(u.rows[run.id := NewRow(other, 0)], u.live + {Run(run.id, other)});
    BeginLeads(answer, swept, u, other, run.id, begun.rows);
    var ended := Ended(run, Answer(answer(run.key)), 0);
    v := World(Finished(begun.rows, run.id, ended.outcome, 0), begun.live - {run});
    assert Step(answer, begun, ended, v);
    LeadsOneFurther(answer, swept, begun, ended, v);
  }

  /** A sweep leaves every later claim right exactly when nothing is in
      flight, as soon as two keys have different answers. */
  lemma SweepIsSafeExactlyWhenIdle(answer: Key -> string, w: World, now: int, a: Key, b: Key)
    requires Inv(answer, w) && answer(a) != answer(b)
    ensures w.live == {} <==>
            forall v :: LeadsTo(answer, World(Swept(w.rows, now), w.live), v) ==> ServesAnswers(answer, v.rows)
  {
    var swept := World(Swept(w.rows, now), w.live);
    if w.live == {} {
      assert Step(answer, w, SweptUp(now), swept);
      StepKeepsInv(answer, w, SweptUp(now), swept);
      forall v | LeadsTo(answer, swept, v) ensures ServesAnswers(answer, v.rows) {
        var worlds, events :| IsRun(answer, worlds, events) && Ordinary(events) && worlds[0] == swept &&
          worlds[|events|] == v;
        ClaimsAreAnswers(answer, worlds, events, |events|);
      }
    } else {
      var run :| run in w.live;
      var other := if answer(a) != answer(run.key) then a else b;
      var v := SweptRunAnswersAnotherKey(answer, w, now, run, other);
      assert !ServesAnswers(answer, v.rows);
    }
  }

  // -------------------------------------------------------------------------
  // A late report
  // -------------------------------------------------------------------------

  /** A run is cancelled, its row collected, another key begun: it gets the same
      id. */
  lemma IdComesBack(answer: Key -> string, key: Key, other: Key)
    ensures LeadsTo(answer, World(map[], {}), World(map[1 := NewRow(other, 0)], {Run(1, other)}))
  {
    var run, empty := Run(1, key), World(map[], {});
    var begun := World(map[1 := NewRow(key, 0)], {run});
    var stopped := World(Finished(begun.rows, 1, Stopped, 0), {});
    LeadsToItself(answer, empty);
    BeginOnEmpty(answer, empty, key, begun);
    LeadsOneFurther(answer, empty, empty, Begun(key, 0), begun);
    assert begun.live - {run} == {};
    LeadsOneFurther(answer, empty, begun, Ended(run, Stopped, 0), stopped);
    assert Collects(stopped.rows, 0, 0, map[]) by {
      assert Done(map[]) == {};
    }
    LeadsOneFurther(answer, empty, stopped, Collected(0, 0), empty);
    var again := World(map[1 := NewRow(other, 0)], {Run(1, other)});
    BeginOnEmpty(answer, empty, other, again);
    LeadsOneFurther(answer, empty, empty, Begun(other, 0), again);
  }

  /** A report of the first run that arrives then answers the other key. */
  lemma LateReportAnswersAnotherKey(answer: Key -> string, key: Key, other: Key) returns (w: World, v: World)
    requires answer(key) != answer(other)
    ensures LeadsTo(answer, World(map[], {}), w) && Inv(answer, World(map[], {}))
    ensures Step(answer, w, EndedAgain(Run(1, key), Answer(answer(key)), 0), v)
    ensures 1 in v.rows && Serves(v.rows[1], other) && v.rows[1].body == Some(answer(key))
  {
    IdComesBack(answer, key, other);
    w := World(map[1 := NewRow(other, 0)], {Run(1, other)});
    v := World(Finished(w.rows, 1, Answer(answer(key)), 0), w.live);
  }

  lemma BeginOnEmpty(answer: Key -> string, w: World, key: Key, v: World)
    requires w == World(map[], {}) && v == World(map[1 := NewRow(key, 0)], {Run(1, key)})
    ensures Step(answer, w, Begun(key, 0), v)
  {
    var run: Option<int> := Some(1);
    assert Cleared(w.rows, key) == map[];
    assert Begins(w.rows, key, 0, run, v.rows);
    assert w.live + {Run(1, key)} == {Run(1, key)};
  }

  // -------------------------------------------------------------------------
  // What is stored comes back
  // -------------------------------------------------------------------------

  /** A run that ends with an answer is served to claims for its key, with that
      body, until it is collected; any other ending serves nothing and leaves
      the key free for the next attempt. */
  lemma EndingDecidesTheClaim(answer: Key -> string, w: World, run: Run, outcome: Outcome, ended: int, now: int)
    requires Inv(answer, w) && run in w.live
    ensures var t := Finished(w.rows, run.id, outcome, ended);
            (forall hit: Option<Hit>, next :: Claims(t, run.key, now, hit, next) ==>
               hit == if outcome.Answer? then Some(Hit(outcome.body, |outcome.body|,
                   (now - ended) * 1000)) else None) &&
            (IsHeld(t, run.key) <==> outcome.Answer?)
  {
    var t := Finished(w.rows, run.id, outcome, ended);
    forall i | i in t && t[i].key == run.key ensures i == run.id {
      assert w.rows[i].key == run.key;
    }
    if outcome.Answer? {
      assert Serves(t[run.id], run.key) && Holds(t[run.id], run.key);
    }
  }

  /** A row moves out of `running` once: a second ending changes nothing, and the
      first one touches no other row. */
  lemma RunsEndOnce(t: Table, run: int, first: Outcome, second: Outcome, at: int, later: int)
    ensures var once := Finished(t, run, first, at);
            Finished(once, run, second, later) == once && once.Keys == t.Keys &&
            (forall i :: i in t && i != run ==> once[i] == t[i]) &&
            (run in t && t[run].state == Running ==> (once[run].body.Some? <==> first.Answer?))
  {}

  /** What the row of a run says once it has ended: who asked and when stay, what is
      stored is the answer with its length, or the message of a failure. */
  lemma EndedRowSays(t: Table, run: int, outcome: Outcome, now: int)
    requires run in t && t[run].state == Running
    ensures var row := Finished(t, run, outcome, now)[run];
            row.key == t[run].key && row.started == t[run].started && row.finished == Some(now) &&
            row.claimed == t[run].claimed && row.claims == t[run].claims &&
            match outcome
            case Answer(body) =>
              row.state == Ready && row.body == Some(body) && row.bytes == |body| && row.error == None
            case Failure(message) => row.state == Failed && row.body == None && row.error == Some(message)
            case TimedOut => row.state == Timeout && row.body == None && row.error == None
            case Overflowed => row.state == Overflow && row.body == None && row.error == None
            case Stopped => row.state == Cancelled && row.body == None && row.error == None
  {}

  /** A claim that is served counts one more use of one row, notes when, and leaves
      everything else as it was. */
  lemma ClaimIsCounted(t: Table, key: Key, now: int, hit: Hit, next: Table) returns (i: int)
    requires Claims(t, key, now, Some(hit), next)
    ensures i in t && t[i].key == key && t[i].state == Ready && next.Keys == t.Keys
    ensures next[i].claims == t[i].claims + 1 && next[i].claimed == Some(now)
    ensures next[i].key == key && next[i].state == Ready && next[i].body == t[i].body == Some(hit.body)
    ensures next[i].started == t[i].started && next[i].finished == t[i].finished && next[i].bytes == t[i].bytes
    ensures hit.bytes == t[i].bytes && (t[i].finished.Some? ==> hit.lead == (now - t[i].finished.value) * 1000)
    ensures forall j :: j in t && j != i ==> next[j] == t[j]
  {
    i :| i in t && Serves(t[i], key) && Some(hit) == Some(HitOf(t[i], now)) &&
         next == t[i := t[i].(claimed := Some(now), claims := t[i].claims + 1)];
  }

  /** An attempt leaves every row of another key, and each one that holds its own
      key; its new row is running since now, with nothing in it yet. */
  lemma BeginLeavesTheRest(t: Table, key: Key, now: int, run: Option<int>, next: Table)
    requires Begins(t, key, now, run, next)
    ensures forall i :: i in t && (t[i].key != key || t[i].state == Running || t[i].state == Ready) ==>
      i in next && next[i] == t[i]
    ensures forall i :: i in next && Some(i) != run ==> i in t && next[i] == t[i]
    ensures run == None <==> exists i :: i in t && t[i].key == key && (t[i].state == Running || t[i].state == Ready)
    ensures run.Some? ==> run.value in next && next[run.value] == Row(key, Running, now, None, None, 0, None, 0, None)
  {
    assert run == None <==> IsHeld(t, key);
    forall i | i in t && (t[i].key != key || Holds(t[i], key)) ensures i in next && next[i] == t[i] {
      assert i in Cleared(t, key);
    }
    if i :| i in t && t[i].key == key && (t[i].state == Running || t[i].state == Ready) {
      assert Holds(t[i], key);
    }
  }

  /** What a sweep does to a row. */
  lemma SweptRowSays(t: Table, now: int, i: int)
    requires i in t
    ensures Swept(t, now).Keys == t.Keys
    ensures t[i].state != Running ==> Swept(t, now)[i] == t[i]
    ensures t[i].state == Running ==>
      Swept(t, now)[i] == Row(t[i].key, Orphaned, t[i].started, Some(now), t[i].claimed, t[i].claims, t[i].body,
                              t[i].bytes, t[i].error)
  {}

  /** A run that began at `now` and has ended outlives every collection that looks
      no further ahead than that, as long as the table is not over its size. */
  lemma FinishedRunIsKept(t: Table, key: Key, now: int, run: int, begun: Table, later: Table, outcome: Outcome,
      ended: int, cutoff: int, maxRows: nat, next: Table)
    requires Begins(t, key, now, Some(run), begun)
    requires run in later && later[run] == begun[run]
    requires Collects(Finished(later, run, outcome, ended), cutoff, maxRows, next)
    requires |Done(Finished(later, run, outcome, ended))| <= maxRows && cutoff <= now
    ensures run in next && next[run].state != Running && next[run].key == key && next[run].started == now
  {
    var done := Finished(later, run, outcome, ended);
    if run !in next {
      forall i | i in Done(next) ensures i in Done(done) - {run} {
        assert i in next && next[i] == done[i];
      }
      SubsetIsSmaller(Done(next), Done(done) - {run});
    }
  }

  /** Of two ended runs the one that began later is never collected alone. */
  lemma NewerOutliveOlder(t: Table, cutoff: int, maxRows: nat, next: Table, older: int, newer: int)
    requires Collects(t, cutoff, maxRows, next)
    requires older in Done(t) && newer in Done(t) && t[older].started < t[newer].started
    ensures older in next ==> newer in next
  {
    if older in next {
      assert older in Done(next);
    }
  }

  /** As many ended runs stay as there are in time, or as the table may hold. */
  lemma CollectsNoMoreThanNeeded(t: Table, cutoff: int, maxRows: nat, next: Table)
    requires Collects(t, cutoff, maxRows, next)
    ensures var inTime := set i | i in Done(t) && t[i].started >= cutoff;
            |Done(next)| == if |inTime| <= maxRows then |inTime| else maxRows
  {
    var inTime := set i | i in Done(t) && t[i].started >= cutoff;
    forall i | i in Done(next) ensures i in inTime {
      assert i in next && next[i] == t[i];
    }
    SubsetIsSmaller(Done(next), inTime);
    if |inTime - Done(next)| > 0 {
      var i := Member(inTime - Done(next));
      assert i !in next;
      SubsetIsSmaller(Done(next) + {i}, inTime);
    } else {
      assert Done(next) == inTime - (inTime - Done(next)) == inTime;
    }
  }

  /** Some row serves the key, with what `hit` says. */
  ghost predicate FindsHit(t: Table, key: Key, at: int, hit: Option<Hit>) {
    if exists i :: i in t && Serves(t[i], key) then
      exists i :: i in t && Serves(t[i], key) && hit == Some(HitOf(t[i], at))
    else hit == None
  }

  /** After a sweep nothing is running: exactly the keys with an answer are held,
      claims find what they found before, and any other key is free for the next
      attempt. */
  lemma SweepFreesKeys(t: Table, now: int, key: Key)
    ensures IsHeld(Swept(t, now), key) <==> exists i :: i in t && t[i].key == key && t[i].state == Ready
    ensures forall at, hit: Option<Hit>, next :: Claims(Swept(t, now), key, at, hit, next) ==> FindsHit(t, key, at, hit)
  {
    var swept := Swept(t, now);
    forall i | i in t ensures Serves(swept[i], key) <==> Serves(t[i], key) {}
    if IsHeld(swept, key) {
      var i :| i in swept && Holds(swept[i], key);
      assert t[i].key == key && t[i].state == Ready;
    }
    if i :| i in t && t[i].key == key && t[i].state == Ready {
      assert Holds(swept[i], key);
    }
    forall at, hit: Option<Hit>, next | Claims(swept, key, at, hit, next) ensures FindsHit(t, key, at, hit) {
      if i :| i in t && Serves(t[i], key) {
        assert Serves(swept[i], key);
        var j :| j in swept && Serves(swept[j], key) && hit == Some(HitOf(swept[j], at));
        assert swept[j] == t[j];
      }
    }
  }

  /** A daemon that starts over a dead one's table: it sweeps, asks, and attempts
      what nothing answers.  No key stays stuck: it is answered, or the attempt
      gets a run. */
  method AskAfterRestart(store: SpecStore, answer: Key -> string, key: Key, now: int)
    returns (hit: Option<Hit>, run: Option<int>)
    requires ServesAnswers(answer, store.rows)
    modifies store
    ensures hit.Some? <==>
            exists i :: i in old(store.rows) && old(store.rows)[i].key == key && old(store.rows)[i].state == Ready
    ensures hit.Some? ==> hit.value.body == answer(key)
    ensures run.Some? <==> hit == None
    ensures run.Some? ==> run.value in store.rows && store.rows[run.value] == NewRow(key, now)
  {
    ghost var t := store.rows;
    SweepFreesKeys(t, now, key);
    var swept := store.SweepOrphans(now);
    hit := store.Claim(key, now);
    run := None;
    assert FindsHit(t, key, now, hit);
    if hit == None {
      run := store.Begin(key, now);
    }
  }
}
