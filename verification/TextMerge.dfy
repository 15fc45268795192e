/** The content merge of one regular file: the text gate, the wrapper around
    the line-merge library, modify/delete blocks and marker detection.
    File contents are byte strings, one `char` per byte. */
module TextMerge {
  import opened Paths

  type Bytes = string

  /** What the line-merge library answers for (base, ours, theirs). */
  datatype LibMerge = Clean(text: Bytes) | Conflicts(text: Bytes)

  type Library = (Bytes, Bytes, Bytes) -> LibMerge

  datatype Reason = KindChange | Binary | TooLarge | Ancestry(inner: seq<Path>)

  datatype ConflictKind = Hunks | TheirsDeleted | OursDeleted

  datatype ContentMerge = Merged(bytes: Bytes) | Conflicted(marked: Bytes, hunks: nat, kind: ConflictKind)

  datatype Result<+T, +E> = Ok(value: T) | Err(error: E)

  /** Everything outside the merge that its outcome depends on: the library,
      the UTF-8 test, the size cap and the label of the fork. */
  datatype Env = Env(library: Library, utf8: Bytes -> bool, maxFileBytes: nat, oursName: string)

  const MAINLINE := "mainline"
  const BINARY_PROBE_BYTES := 8192
  const U32_MAX := 0xFFFF_FFFF

  // -------------------------------------------------------------------------
  // Trailing newlines
  // -------------------------------------------------------------------------

  predicate EndsWithNewline(s: Bytes) {
    s != "" && s[|s| - 1] == '\n'
  }

  /** Empty, or made of complete lines. */
  predicate Terminated(s: Bytes) {
    s == "" || EndsWithNewline(s)
  }

  function EnsureTrailingNewline(s: Bytes): (r: Bytes)
    ensures Terminated(r)
  {
    if Terminated(s) then s else s + "\n"
  }

  predicate MergedHasTrailingNewline(base: Bytes, ours: Bytes, theirs: Bytes) {
    if EndsWithNewline(ours) == EndsWithNewline(theirs) then EndsWithNewline(ours)
    else if EndsWithNewline(ours) == EndsWithNewline(base) then EndsWithNewline(theirs)
    else EndsWithNewline(ours)
  }

  /** `String::pop`, which does nothing to an empty string. */
  function Pop(s: Bytes): Bytes {
    if s == "" then "" else s[..|s| - 1]
  }

  // -------------------------------------------------------------------------
  // merge3
  // -------------------------------------------------------------------------

  /** `str::replace`: left to right, without overlaps. */
  function ReplaceAll(s: Bytes, pattern: Bytes, replacement: Bytes): Bytes
    requires pattern != ""
    decreases |s|
  {
    if s == "" then ""
    else if pattern <= s then replacement + ReplaceAll(s[|pattern|..], pattern, replacement)
    else [s[0]] + ReplaceAll(s[1..], pattern, replacement)
  }

  function Relabel(s: Bytes, oursName: string, theirsName: string): Bytes {
    ReplaceAll(ReplaceAll(s, "<<<<<<< ours", "<<<<<<< " + oursName),
               ">>>>>>> theirs", ">>>>>>> " + theirsName)
  }

  function Merge3(library: Library, base: Bytes, ours: Bytes, theirs: Bytes,
                  oursName: string, theirsName: string): LibMerge
  {
    match library(EnsureTrailingNewline(base), EnsureTrailingNewline(ours), EnsureTrailingNewline(theirs))
    case Clean(text) =>
      Clean(if MergedHasTrailingNewline(base, ours, theirs) then text else Pop(text))
    case Conflicts(text) => Conflicts(Relabel(text, oursName, theirsName))
  }

  /** The laws the library obeys on complete lines: an unchanged side yields
      to the other one, and equal sides are their own merge. */
  ghost predicate IdentityLaws(library: Library) {
    forall b: Bytes, x: Bytes {:trigger Terminated(b), Terminated(x)} :: Terminated(b) && Terminated(x) ==>
      library(b, b, x) == Clean(x) && library(b, x, b) == Clean(x) && library(b, x, x) == Clean(x)
  }

  /** The identities hold on every input, whatever its last line looks like. */
  lemma Merge3KeepsIdentities(library: Library, b: Bytes, x: Bytes, oursName: string, theirsName: string)
    requires IdentityLaws(library)
    ensures Merge3(library, b, b, x, oursName, theirsName) == Clean(x)
    ensures Merge3(library, b, x, b, oursName, theirsName) == Clean(x)
    ensures Merge3(library, b, x, x, oursName, theirsName) == Clean(x)
  {
    var nb, nx := EnsureTrailingNewline(b), EnsureTrailingNewline(x);
    assert Terminated(nb) && Terminated(nx);
    assert !EndsWithNewline(x) ==> Pop(nx) == x;
  }

  // -------------------------------------------------------------------------
  // Conflict markers
  // -------------------------------------------------------------------------

  /** Just past the first newline, or the end. */
  function LineEnd(s: Bytes): (n: nat)
    ensures n <= |s| && (s != "" ==> n > 0)
  {
    if s == "" then 0 else if s[0] == '\n' then 1 else 1 + LineEnd(s[1..])
  }

  /** `split_inclusive('\n')` */
  function SplitInclusive(s: Bytes): seq<Bytes>
    decreases |s|
  {
    if s == "" then [] else [s[..LineEnd(s)]] + SplitInclusive(s[LineEnd(s)..])
  }

  /** What `lines()` makes of one piece of `split_inclusive`. */
  function StripLineEnding(line: Bytes): Bytes {
    if !EndsWithNewline(line) then line
    else
      var body := line[..|line| - 1];
      if body != "" && body[|body| - 1] == '\r' then body[..|body| - 1] else body
  }

  predicate IsOpening(line: Bytes) {
    "<<<<<<< " <= line || "<<<<<<<\t" <= line
  }

  predicate IsSeparator(line: Bytes) {
    StripLineEnding(line) == "=======" || StripLineEnding(line) == "=======\r"
  }

  predicate HasConflictMarkers(content: Bytes) {
    (exists line :: line in SplitInclusive(content) && IsOpening(line)) &&
    (exists line :: line in SplitInclusive(content) && IsSeparator(line))
  }

  function CountOpenings(lines: seq<Bytes>): nat {
    if lines == [] then 0
    else (if "<<<<<<< " <= lines[0] then 1 else 0) + CountOpenings(lines[1..])
  }

  function ConflictHunks(content: Bytes): nat {
    var n := CountOpenings(SplitInclusive(content));
    if n > U32_MAX then U32_MAX else n
  }

  // The two line tests as scans over the text; `atStart` says that the scan
  // stands at the start of a line.

  predicate OpensSomewhere(s: Bytes, atStart: bool) {
    s != "" && ((atStart && IsOpening(s)) || OpensSomewhere(s[1..], s[0] == '\n'))
  }

  predicate SeparatorHere(s: Bytes) {
    "=======" <= s &&
    (|s| == 7 || s[7] == '\n' ||
     (s[7] == '\r' && (|s| == 8 || s[8] == '\n' || (|s| > 9 && s[8] == '\r' && s[9] == '\n'))))
  }

  predicate SeparatesSomewhere(s: Bytes, atStart: bool) {
    s != "" && ((atStart && SeparatorHere(s)) || SeparatesSomewhere(s[1..], s[0] == '\n'))
  }

  lemma {:induction false} LineEndIsFirst(s: Bytes)
    ensures var n := LineEnd(s);
            (forall i :: 0 <= i < n - 1 ==> s[i] != '\n') && (s != "" && n < |s| ==> s[n - 1] == '\n')
  {
    if s != "" && s[0] != '\n' {
      LineEndIsFirst(s[1..]);
      assert forall i :: 0 < i < |s| ==> s[i] == s[1..][i - 1];
    }
  }

  lemma {:induction false} ScanFromLineStart(s: Bytes, k: nat)
    requires k < LineEnd(s)
    ensures OpensSomewhere(s, false) <==> OpensSomewhere(s[k..], false)
    ensures SeparatesSomewhere(s, false) <==> SeparatesSomewhere(s[k..], false)
  {
    if k > 0 {
      LineEndIsFirst(s);
      ScanFromLineStart(s[1..], k - 1);
      assert s[1..][k - 1..] == s[k..];
    } else {
      assert s[0..] == s;
    }
  }

  /** Skipping the rest of a line that has already been tested. */
  lemma ScanSkipsLine(s: Bytes)
    requires s != ""
    ensures var n := LineEnd(s);
            (OpensSomewhere(s, false) <==> OpensSomewhere(s[n..], true)) &&
            (SeparatesSomewhere(s, false) <==> SeparatesSomewhere(s[n..], true))
  {
    var n := LineEnd(s);
    LineEndIsFirst(s);
    ScanFromLineStart(s, n - 1);
    assert s[n - 1..][1..] == s[n..];
  }

  lemma SeparatorStartsItsLine(s: Bytes)
    requires s != "" && SeparatorHere(s)
    ensures IsSeparator(s[..LineEnd(s)])
  {
    LineEndIsFirst(s);
    var n := LineEnd(s);
    var line := s[..n];
    assert s[..7] == "=======" && forall i :: 0 <= i < 7 ==> s[i] == "======="[i];
    assert n == if |s| == 7 then 7
                else if s[7] == '\n' || |s| == 8 then 8
                else if s[8] == '\n' then 9
                else 10;
    assert line[..7] == "=======";
    assert n >= 8 ==> line[..8] == line[..7] + [s[7]];
    assert n >= 9 ==> line[..9] == line[..8] + [s[8]];
    assert n == 8 ==> line == line[..8];
    assert n >= 8 && s[7] == '\r' ==> line[..8] == "=======\r" && line[..8][..7] == "=======";
  }

  lemma SeparatorLine(s: Bytes)
    requires s != ""
    ensures IsSeparator(s[..LineEnd(s)]) <==> SeparatorHere(s)
  {
    LineEndIsFirst(s);
    var n := LineEnd(s);
    var line := s[..n];
    if SeparatorHere(s) {
      SeparatorStartsItsLine(s);
    }
    if IsSeparator(line) {
      var core := StripLineEnding(line);
      assert core <= line && core[..7] == "=======";
      assert forall i :: 0 <= i < 7 ==> s[i] == line[i] == core[i] == "======="[i];
      assert s[..7] == "=======";
      assert |core| == 8 ==> s[7] == core[7] == '\r';
      assert line != core ==> s[n - 1] == '\n' && (n == |core| + 1 || (n == |core| + 2 && s[n - 2] == '\r'));
      assert line == core ==> n == |s|;
    }
  }

  lemma OpeningLine(s: Bytes)
    requires s != ""
    ensures IsOpening(s[..LineEnd(s)]) <==> IsOpening(s)
  {
    LineEndIsFirst(s);
    var n := LineEnd(s);
    assert forall i :: 0 <= i < n ==> s[..n][i] == s[i];
  }

  /** The scans decide `HasConflictMarkers`. */
  lemma {:induction false} MarkersByScan(s: Bytes)
    ensures (exists line :: line in SplitInclusive(s) && IsOpening(line)) <==> OpensSomewhere(s, true)
    ensures (exists line :: line in SplitInclusive(s) && IsSeparator(line)) <==> SeparatesSomewhere(s, true)
    decreases |s|
  {
    if s != "" {
      var n := LineEnd(s);
      var head, rest := s[..n], SplitInclusive(s[n..]);
      MarkersByScan(s[n..]);
      ScanSkipsLine(s);
      SeparatorLine(s);
      OpeningLine(s);
      assert SplitInclusive(s) == [head] + rest;
      assert forall line :: line in SplitInclusive(s) <==> line == head || line in rest;
    }
  }

  // Relabelling the blocks keeps them recognisable.

  ghost predicate LabelPattern(pattern: Bytes, replacement: Bytes) {
    (pattern == "<<<<<<< ours" && "<<<<<<< " <= replacement) || pattern == ">>>>>>> theirs"
  }

  lemma {:induction false} ScanPastPlainText(s: Bytes, k: nat)
    requires 0 < k <= |s| && forall i :: 0 <= i < k ==> s[i] != '\n'
    ensures OpensSomewhere(s[1..], s[0] == '\n') ==> OpensSomewhere(s[k..], false)
    ensures SeparatesSomewhere(s[1..], s[0] == '\n') ==> SeparatesSomewhere(s[k..], false)
  {
    if k > 1 {
      ScanPastPlainText(s[1..], k - 1);
      assert s[1..][k - 1..] == s[k..];
    }
  }

  lemma {:induction false} ScanFindsLater(x: Bytes, y: Bytes, atStart: bool)
    ensures OpensSomewhere(y, false) ==> OpensSomewhere(x + y, atStart)
    ensures SeparatesSomewhere(y, false) ==> SeparatesSomewhere(x + y, atStart)
  {
    if x == "" {
      assert x + y == y;
    } else {
      ScanFindsLater(x[1..], y, x[0] == '\n');
      assert (x + y)[1..] == x[1..] + y;
    }
  }

  lemma {:induction false} ReplaceKeepsHead(s: Bytes, pattern: Bytes, replacement: Bytes, k: nat)
    requires pattern != "" && k <= |s| && forall i :: 0 <= i < k ==> !(pattern <= s[i..])
    ensures ReplaceAll(s, pattern, replacement) == s[..k] + ReplaceAll(s[k..], pattern, replacement)
  {
    if k == 0 {
      assert s[0..] == s;
    } else {
      assert s[0..] == s;
      forall i | 0 <= i < k - 1 ensures !(pattern <= s[1..][i..]) {
        assert s[1..][i..] == s[i + 1..];
      }
      ReplaceKeepsHead(s[1..], pattern, replacement, k - 1);
      assert s[1..][k - 1..] == s[k..];
      assert s[..k] == [s[0]] + s[1..][..k - 1];
    }
  }

  lemma OpeningIsKept(s: Bytes, pattern: Bytes, replacement: Bytes)
    requires LabelPattern(pattern, replacement) && IsOpening(s)
    ensures IsOpening(ReplaceAll(s, pattern, replacement))
  {
    assert forall i :: 0 <= i < 7 ==> s[i] == '<';
    assert s[7] != '<' && s[7] != '>';
    if !(pattern <= s) {
      forall i | 0 <= i < 8 ensures !(pattern <= s[i..]) {
        assert s[0..] == s;
        assert |s[i..]| > 7 - i && s[i..][7 - i] == s[7];
      }
      ReplaceKeepsHead(s, pattern, replacement, 8);
    } else {
      assert pattern[0] == s[0];
      var rest := ReplaceAll(s[|pattern|..], pattern, replacement);
      assert (replacement + rest)[..8] == replacement[..8];
    }
  }

  lemma SeparatorIsKept(s: Bytes, pattern: Bytes, replacement: Bytes)
    requires LabelPattern(pattern, replacement) && SeparatorHere(s)
    ensures SeparatorHere(ReplaceAll(s, pattern, replacement))
  {
    assert forall i :: 0 <= i < 7 ==> s[i] == '=';
    var k := if |s| == 7 then 7 else if s[7] == '\n' || |s| == 8 then 8 else if s[8] == '\n' then 9 else 10;
    assert forall i :: 0 <= i < k ==> s[i] != pattern[0];
    forall i | 0 <= i < k ensures !(pattern <= s[i..]) {
      assert s[i..][0] == s[i];
    }
    ReplaceKeepsHead(s, pattern, replacement, k);
    var r := ReplaceAll(s, pattern, replacement);
    assert s[..k] <= r && (|s| == k ==> r == s);
    assert forall i :: 0 <= i < k ==> r[i] == s[i];
    assert r[..7] == s[..7];
  }

  lemma {:induction false} ReplaceKeepsMarkers(s: Bytes, pattern: Bytes, replacement: Bytes, atStart: bool)
    requires LabelPattern(pattern, replacement)
    ensures OpensSomewhere(s, atStart) ==> OpensSomewhere(ReplaceAll(s, pattern, replacement), atStart)
    ensures SeparatesSomewhere(s, atStart) ==> SeparatesSomewhere(ReplaceAll(s, pattern, replacement), atStart)
    decreases |s|
  {
    if s != "" {
      var r := ReplaceAll(s, pattern, replacement);
      if atStart && IsOpening(s) { OpeningIsKept(s, pattern, replacement); }
      if atStart && SeparatorHere(s) { SeparatorIsKept(s, pattern, replacement); }
      if pattern <= s {
        var rest := s[|pattern|..];
        assert forall i :: 0 <= i < |pattern| ==> s[i] == pattern[i] && pattern[i] != '\n';
        ScanPastPlainText(s, |pattern|);
        ReplaceKeepsMarkers(rest, pattern, replacement, false);
        ScanFindsLater(replacement, ReplaceAll(rest, pattern, replacement), atStart);
      } else {
        ReplaceKeepsMarkers(s[1..], pattern, replacement, s[0] == '\n');
        assert r[1..] == ReplaceAll(s[1..], pattern, replacement);
      }
    }
  }

  lemma RelabelKeepsMarkers(s: Bytes, oursName: string, theirsName: string)
    requires HasConflictMarkers(s)
    ensures HasConflictMarkers(Relabel(s, oursName, theirsName))
  {
    var once := ReplaceAll(s, "<<<<<<< ours", "<<<<<<< " + oursName);
    MarkersByScan(s);
    ReplaceKeepsMarkers(s, "<<<<<<< ours", "<<<<<<< " + oursName, true);
    ReplaceKeepsMarkers(once, ">>>>>>> theirs", ">>>>>>> " + theirsName, true);
    MarkersByScan(Relabel(s, oursName, theirsName));
  }

  // -------------------------------------------------------------------------
  // One file both sides changed
  // -------------------------------------------------------------------------

  predicate HasNul(s: Bytes) {
    exists i :: 0 <= i < |s| && i < BINARY_PROBE_BYTES && s[i] == '\0'
  }

  function TextGate(env: Env, bytes: Bytes): Result<Bytes, Reason> {
    if |bytes| > env.maxFileBytes then Err(TooLarge)
    else if HasNul(bytes) then Err(Binary)
    else if !env.utf8(bytes) then Err(Binary)
    else Ok(bytes)
  }

  function Gate(env: Env, side: Option<Bytes>): Result<Option<Bytes>, Reason> {
    match side
    case None => Ok(None)
    case Some(bytes) =>
      match TextGate(env, bytes)
      case Ok(text) => Ok(Some(text))
      case Err(reason) => Err(reason)
  }

  function OrEmpty(text: Option<Bytes>): Bytes {
    if text.Some? then text.value else ""
  }

  /** One block holding the surviving content against nothing. */
  function ModifyDelete(base: Bytes, kept: Bytes, oursLabel: string, theirsLabel: string,
                        kind: ConflictKind): ContentMerge
  {
    var keptText := EnsureTrailingNewline(kept);
    var oursBlock := if kind.TheirsDeleted? then keptText else "";
    var theirsBlock := if kind.TheirsDeleted? then "" else keptText;
    Conflicted("<<<<<<< " + oursLabel + "\n" + oursBlock + "||||||| original\n" +
               EnsureTrailingNewline(base) + "=======\n" + theirsBlock + ">>>>>>> " + theirsLabel + "\n",
               1, kind)
  }

  function MergeTexts(env: Env, base: Option<Bytes>, ours: Option<Bytes>, theirs: Option<Bytes>): ContentMerge {
    match (ours, theirs)
    case (Some(o), Some(t)) =>
      if o == t then Merged(o)
      else (
        match Merge3(env.library, OrEmpty(base), o, t, env.oursName, MAINLINE)
        case Clean(text) => Merged(text)
        case Conflicts(text) => Conflicted(text, ConflictHunks(text), Hunks)
      )
    case (Some(o), None) =>
      ModifyDelete(OrEmpty(base), o, env.oursName + " (modified)", MAINLINE + " (deleted)", TheirsDeleted)
    case (None, Some(t)) =>
      ModifyDelete(OrEmpty(base), t, env.oursName + " (deleted)", MAINLINE + " (modified)", OursDeleted)
    case (None, None) => Merged("")
  }

  /** Merges one regular file both sides changed; `None` is a deletion on that
      side, or an addition on both when it stands for the base. */
  function MergeFile(env: Env, base: Option<Bytes>, ours: Option<Bytes>, theirs: Option<Bytes>):
    Result<ContentMerge, Reason>
  {
    match Gate(env, base)
    case Err(reason) => Err(reason)
    case Ok(b) =>
      match Gate(env, ours)
      case Err(reason) => Err(reason)
      case Ok(o) =>
        match Gate(env, theirs)
        case Err(reason) => Err(reason)
        case Ok(t) => Ok(MergeTexts(env, b, o, t))
  }

  /** A file that one side deleted never merges cleanly with the other's. */
  lemma DeletionsNeverMerge(env: Env, base: Option<Bytes>, kept: Bytes)
    ensures var r := MergeFile(env, base, Some(kept), None);
            r.Ok? ==> r.value.Conflicted? && r.value.kind == TheirsDeleted
    ensures var r := MergeFile(env, base, None, Some(kept));
            r.Ok? ==> r.value.Conflicted? && r.value.kind == OursDeleted
  {}

  lemma {:induction false} LineBreakStartsFresh(x: Bytes, y: Bytes, atStart: bool)
    requires if x == "" then atStart else EndsWithNewline(x)
    requires SeparatesSomewhere(y, true)
    ensures SeparatesSomewhere(x + y, atStart)
  {
    if x == "" {
      assert x + y == y;
    } else {
      assert (x + y)[1..] == x[1..] + y;
      assert |x| > 1 ==> x[1..][|x| - 2] == x[|x| - 1];
      LineBreakStartsFresh(x[1..], y, x[0] == '\n');
    }
  }

  lemma BlockIsMarked(head: Bytes, tail: Bytes)
    requires "<<<<<<< " <= head && EndsWithNewline(head) && "=======\n" <= tail
    ensures HasConflictMarkers(head + tail)
  {
    assert tail[..7] == "=======\n"[..7] == "=======" && tail[7] == "=======\n"[7];
    LineBreakStartsFresh(head, tail, true);
    assert (head + tail)[..8] == head[..8];
    MarkersByScan(head + tail);
  }

  /** Every modify/delete block is recognised as an open conflict. */
  lemma ModifyDeleteIsMarked(base: Bytes, kept: Bytes, oursLabel: string, theirsLabel: string, kind: ConflictKind)
    ensures HasConflictMarkers(ModifyDelete(base, kept, oursLabel, theirsLabel, kind).marked)
  {
    var keptText, baseText := EnsureTrailingNewline(kept), EnsureTrailingNewline(base);
    var opening := "<<<<<<< " + oursLabel + "\n" + (if kind.TheirsDeleted? then keptText else "") +
      "||||||| original\n";
    var closing := (if kind.TheirsDeleted? then "" else keptText) + ">>>>>>> " + theirsLabel + "\n";
    assert opening + baseText + "=======\n" + closing == (opening + baseText) + ("=======\n" + closing);
    assert ModifyDelete(base, kept, oursLabel, theirsLabel, kind).marked == (opening + baseText) +
      ("=======\n" + closing);
    BlockIsMarked(opening + baseText, "=======\n" + closing);
  }

  /** The library marks its own conflicts. */
  ghost predicate MarkerLaw(library: Library) {
    forall b: Bytes, o: Bytes, t: Bytes ::
      library(b, o, t).Conflicts? ==> HasConflictMarkers(library(b, o, t).text)
  }

  /** Every conflict that `MergeFile` reports is recognised as open until the
      markers are edited away. */
  lemma ConflictsAreMarked(env: Env, base: Option<Bytes>, ours: Option<Bytes>, theirs: Option<Bytes>)
    requires MarkerLaw(env.library)
    ensures var r := MergeFile(env, base, ours, theirs);
            r.Ok? && r.value.Conflicted? ==> HasConflictMarkers(r.value.marked)
  {
    var r := MergeFile(env, base, ours, theirs);
    if r.Ok? && r.value.Conflicted? {
      if ours.Some? && theirs.Some? {
        RelabelKeepsMarkers(env.library(EnsureTrailingNewline(OrEmpty(base)), EnsureTrailingNewline(ours.value),
                                        EnsureTrailingNewline(theirs.value)).text, env.oursName, MAINLINE);
      } else if ours.Some? {
        ModifyDeleteIsMarked(OrEmpty(base), ours.value, env.oursName + " (modified)", MAINLINE +
          " (deleted)", TheirsDeleted);
      } else {
        ModifyDeleteIsMarked(OrEmpty(base), theirs.value, env.oursName + " (deleted)", MAINLINE +
          " (modified)", OursDeleted);
      }
    }
  }

  // -------------------------------------------------------------------------
  // Exchanging the sides
  // -------------------------------------------------------------------------

  /** Whether the library finds a conflict does not depend on which side is which. */
  ghost predicate SymmetricVerdict(library: Library) {
    forall b: Bytes, o: Bytes, t: Bytes :: library(b, o, t).Clean? <==> library(b, t, o).Clean?
  }

  function MirrorKind(kind: ConflictKind): ConflictKind {
    match kind
    case Hunks => Hunks
    case TheirsDeleted => OursDeleted
    case OursDeleted => TheirsDeleted
  }

  /** Exchanging the sides of a file merge keeps a refusal a refusal, a clean
      merge clean, and mirrors the kind of a conflict. */
  lemma MergeFileIsSymmetric(env: Env, base: Option<Bytes>, ours: Option<Bytes>, theirs: Option<Bytes>)
    requires SymmetricVerdict(env.library)
    ensures var r, m := MergeFile(env, base, ours, theirs), MergeFile(env, base, theirs, ours);
            (r.Ok? <==> m.Ok?) &&
            (r.Ok? ==> (r.value.Merged? <==> m.value.Merged?)) &&
            (r.Ok? && r.value.Conflicted? ==> m.value.kind == MirrorKind(r.value.kind))
  {
    if ours.Some? && theirs.Some? {
      var b, o, t := EnsureTrailingNewline(OrEmpty(base)), EnsureTrailingNewline(ours.value),
          EnsureTrailingNewline(theirs.value);
      assert env.library(b, o, t).Clean? <==> env.library(b, t, o).Clean?;
    }
  }
}
