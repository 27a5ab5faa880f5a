/** What the loop collects from a printed diff, and when that is what the edits added. */
module DiffReading {
  import opened Sequences
  import opened DiffTracker
  import opened GitDiff
  import opened DiffHeaders

  // ----- tracking a printed diff -----

  lemma {:induction false} TrackAppend(t: Tracker, a: seq<string>, b: seq<string>)
    ensures TrackAll(t, a + b) == TrackAll(TrackAll(t, a), b)
    decreases |a|
  {
    if a == [] {
      assert a + b == b;
    } else {
      TailOfAppend(a, b);
      TrackAppend(Track(t, a[0]), a[1..], b);
    }
  }

  lemma TrackOne(t: Tracker, line: string)
    ensures TrackAll(t, [line]) == Track(t, line)
  {
    assert [line][1..] == [];
  }

  lemma TrackFirst(t: Tracker, line: string, rest: seq<string>)
    ensures TrackAll(t, [line] + rest) == TrackAll(Track(t, line), rest)
  {
    TrackAppend(t, [line], rest);
    TrackOne(t, line);
  }

  /** A line that changes nothing in the loop's state: neither header, hunk, context nor addition. */
  predicate Quiet(line: string) {
    && !StartsWith(line, GIT_HEADER) && !StartsWith(line, "@@") && !StartsWith(line, " ")
    && (StartsWith(line, "+") ==> StartsWith(line, "+++"))
  }

  lemma {:induction false} TrackQuiet(t: Tracker, lines: seq<string>)
    requires forall line :: line in lines ==> Quiet(line)
    ensures TrackAll(t, lines) == t
    decreases |lines|
  {
    if lines != [] {
      assert Quiet(lines[0]);
      TrackQuiet(t, lines[1..]);
    }
  }

  lemma {:induction false} RemovedAreQuiet(removed: seq<string>)
    ensures forall line :: line in Prefixed('-', removed) ==> Quiet(line)
  {
    if removed != [] {
      RemovedAreQuiet(removed[1..]);
      assert (['-'] + removed[0])[0] == '-';
    }
  }

  lemma UnterminatedIsQuiet(yes: bool)
    ensures forall line :: line in Unterminated(yes) ==> Quiet(line)
  {
    assert yes ==> Unterminated(yes)[0][0] == '\\';
  }

  /** Text whose added line reads as `+++`, which the loop takes for a file header and skips. */
  predicate Skipped(text: string) {
    StartsWith(text, "++")
  }

  /** What the loop collects from added lines when it counts from `line`. */
  function Seen(file: string, line: nat, added: seq<string>): seq<ChangedLine>
    decreases |added|
  {
    if added == [] then []
    else if Skipped(added[0]) then Seen(file, line, added[1..])
    else [ChangedLine(file, line, added[0])] + Seen(file, line + 1, added[1..])
  }

  lemma TrackAdditionLine(t: Tracker, text: string)
    requires t.file != ""
    ensures Track(t, ['+'] + text)
            == if Skipped(text) then t else Tracker(t.file, t.line + 1, t.changed + [ChangedLine(t.file, t.line, text)])
  {
    var line := ['+'] + text;
    assert line[0] == '+' && line[1..] == text;
    assert !StartsWith(line, GIT_HEADER) && !StartsWith(line, "@@");
    assert StartsWith(line, "+++") <==> Skipped(text) by {
      if |text| >= 2 {
        assert line[1] == text[0] && line[2] == text[1];
        assert "+++" == ['+'] + "++";
      }
    }
  }

  lemma {:induction false} TrackAdditions(t: Tracker, added: seq<string>)
    requires t.file != ""
    ensures TrackAll(t, Prefixed('+', added)).file == t.file
    ensures TrackAll(t, Prefixed('+', added)).changed == t.changed + Seen(t.file, t.line, added)
    decreases |added|
  {
    if added == [] {
      AppendNothing(t.changed);
    } else {
      var line, rest := ['+'] + added[0], Prefixed('+', added[1..]);
      TrackFirst(t, line, rest);
      TrackAdditionLine(t, added[0]);
      var next := Track(t, line);
      TrackAdditions(next, added[1..]);
      if !Skipped(added[0]) {
        assert Seen(t.file, t.line, added)
            == [ChangedLine(t.file, t.line, added[0])] + Seen(next.file, next.line, added[1..]);
        AppendIsAssociative(t.changed, [ChangedLine(t.file, t.line, added[0])], Seen(next.file, next.line, added[1..]));
      }
    }
  }

  function SeenHunk(file: string, h: Hunk): seq<ChangedLine> {
    Seen(file, h.newBefore + 1, h.segment.added)
  }

  function SeenHunks(file: string, hunks: seq<Hunk>): seq<ChangedLine> {
    if hunks == [] then [] else SeenHunk(file, hunks[0]) + SeenHunks(file, hunks[1..])
  }

  /** A header that makes the loop count from `line`. */
  ghost predicate StatesLine(header: string, line: nat) {
    forall t: Tracker :: t.file != "" ==> Track(t, header) == t.(line := line)
  }

  lemma HunkStatesLine(h: Hunk)
    ensures StatesLine(HunkHeader(h), HunkLine(h))
  {
    var header := ReadHunk(h);
    ReadStatesLine(header, HunkLine(h));
  }

  lemma ReadStatesLine(header: string, line: nat)
    requires IsHunkHeader(header, line)
    ensures StatesLine(header, line)
  {
    assert !StartsWith(header, GIT_HEADER) && StartsWith(header, "@@");
  }

  lemma TrackRemoved(t: Tracker, s: Segment)
    ensures TrackAll(t, Prefixed('-', s.removed) + Unterminated(s.oldUnterminated)) == t
  {
    RemovedAreQuiet(s.removed);
    UnterminatedIsQuiet(s.oldUnterminated);
    TrackQuiet(t, Prefixed('-', s.removed) + Unterminated(s.oldUnterminated));
  }

  lemma TrackAdded(t: Tracker, s: Segment)
    requires t.file != ""
    ensures var end := TrackAll(t, Prefixed('+', s.added) + Unterminated(s.newUnterminated));
            end.file == t.file && end.changed == t.changed + Seen(t.file, t.line, s.added)
  {
    TrackAppend(t, Prefixed('+', s.added), Unterminated(s.newUnterminated));
    TrackAdditions(t, s.added);
    UnterminatedIsQuiet(s.newUnterminated);
    TrackQuiet(TrackAll(t, Prefixed('+', s.added)), Unterminated(s.newUnterminated));
  }

  lemma TrackBody(t: Tracker, s: Segment)
    requires t.file != ""
    ensures TrackAll(t, HunkBody(s)).file == t.file
    ensures TrackAll(t, HunkBody(s)).changed == t.changed + Seen(t.file, t.line, s.added)
  {
    TrackAppend(t, Prefixed('-', s.removed) + Unterminated(s.oldUnterminated),
                Prefixed('+', s.added) + Unterminated(s.newUnterminated));
    TrackRemoved(t, s);
    TrackAdded(t, s);
  }

  lemma TrackHunk(t: Tracker, h: Hunk)
    requires t.file != ""
    ensures TrackAll(t, PrintHunk(h)).file == t.file
    ensures TrackAll(t, PrintHunk(h)).changed == t.changed + SeenHunk(t.file, h)
  {
    if h.segment.removed == [] && h.segment.added == [] {
      AppendNothing(t.changed);
    } else {
      HunkStatesLine(h);
      TrackPrinted(t, HunkHeader(h), HunkLine(h), h.segment);
    }
  }

  lemma TrackPrinted(t: Tracker, header: string, line: nat, s: Segment)
    requires t.file != "" && StatesLine(header, line)
    ensures TrackAll(t, [header] + HunkBody(s)).file == t.file
    ensures TrackAll(t, [header] + HunkBody(s)).changed == t.changed + Seen(t.file, line, s.added)
  {
    TrackFirst(t, header, HunkBody(s));
    assert Track(t, header) == t.(line := line);
    TrackBody(Track(t, header), s);
  }

  lemma {:induction false} TrackHunks(t: Tracker, hunks: seq<Hunk>)
    requires t.file != ""
    ensures TrackAll(t, PrintHunks(hunks)).file == t.file
    ensures TrackAll(t, PrintHunks(hunks)).changed == t.changed + SeenHunks(t.file, hunks)
    decreases |hunks|
  {
    if hunks == [] {
      AppendNothing(t.changed);
    } else {
      TrackHunk(t, hunks[0]);
      TrackHunks(TrackAll(t, PrintHunk(hunks[0])), hunks[1..]);
      TrackAppend(t, PrintHunk(hunks[0]), PrintHunks(hunks[1..]));
      AppendIsAssociative(t.changed, SeenHunk(t.file, hunks[0]), SeenHunks(t.file, hunks[1..]));
    }
  }

  // ----- files that are not checked -----

  lemma {:induction false} TrackIgnored(t: Tracker, lines: seq<string>)
    requires t.file == "" && NoHeaders(lines)
    ensures TrackAll(t, lines) == t
    decreases |lines|
  {
    if lines != [] {
      assert !StartsWith(lines[0], GIT_HEADER);
      TrackIgnored(t, lines[1..]);
    }
  }

  lemma {:induction false} AddedAreNoHeaders(added: seq<string>)
    ensures NoHeaders(Prefixed('+', added))
  {
    if added != [] {
      AddedAreNoHeaders(added[1..]);
      assert (['+'] + added[0])[0] == '+';
    }
  }

  predicate NoHeaders(lines: seq<string>) {
    forall line :: line in lines ==> !StartsWith(line, GIT_HEADER)
  }

  lemma HunkHasNoHeaders(h: Hunk)
    ensures NoHeaders(PrintHunk(h))
  {
    RemovedAreQuiet(h.segment.removed);
    AddedAreNoHeaders(h.segment.added);
    UnterminatedIsQuiet(h.segment.oldUnterminated);
    UnterminatedIsQuiet(h.segment.newUnterminated);
    assert HunkHeader(h)[0] == '@';
  }

  lemma {:induction false} HunksHaveNoHeaders(hunks: seq<Hunk>)
    ensures NoHeaders(PrintHunks(hunks))
  {
    if hunks != [] {
      HunkHasNoHeaders(hunks[0]);
      HunksHaveNoHeaders(hunks[1..]);
    }
  }

  // ----- whole diffs -----

  /** What git guarantees of the lines between a header and the first hunk. */
  predicate QuietPreambles(edits: seq<FileEdit>) {
    forall edit :: edit in edits ==> forall line :: line in edit.preamble ==> Quiet(line)
  }

  /** The loop's current file after a header; a header that gives no path changes nothing. */
  function CurrentAfter(file: string, edit: FileEdit): string {
    match HeaderPath(GitHeader(edit))
    case Some(path) => if IsRelevant(path) then path else ""
    case None => file
  }

  /** What is collected from an edit's hunks under the current file. */
  function Piece(file: string, edit: FileEdit): seq<ChangedLine> {
    if file == "" then [] else SeenHunks(file, HunksOf(0, 0, edit.segments))
  }

  function Pieces(file: string, edits: seq<FileEdit>): seq<seq<ChangedLine>>
    decreases |edits|
  {
    if edits == [] then []
    else
      var current := CurrentAfter(file, edits[0]);
      [Piece(current, edits[0])] + Pieces(current, edits[1..])
  }

  lemma TrackGitHeader(t: Tracker, edit: FileEdit)
    ensures Track(t, GitHeader(edit)) == t.(file := CurrentAfter(t.file, edit))
  {
    Prefix(GIT_HEADER, " " + Sides(edit));
  }

  lemma TrackSegments(t: Tracker, edit: FileEdit)
    ensures var end := TrackAll(t, PrintHunks(HunksOf(0, 0, edit.segments)));
            end.file == t.file && end.changed == t.changed + Piece(t.file, edit)
  {
    var hunks := HunksOf(0, 0, edit.segments);
    if t.file != "" {
      TrackHunks(t, hunks);
    } else {
      HunksHaveNoHeaders(hunks);
      TrackIgnored(t, PrintHunks(hunks));
      AppendNothing(t.changed);
    }
  }

  lemma TrackAfterHeader(t: Tracker, preamble: seq<string>, body: seq<string>)
    requires forall line :: line in preamble ==> Quiet(line)
    ensures TrackAll(t, preamble + body) == TrackAll(t, body)
  {
    TrackAppend(t, preamble, body);
    TrackQuiet(t, preamble);
  }

  lemma TrackFile(t: Tracker, edit: FileEdit)
    requires forall line :: line in edit.preamble ==> Quiet(line)
    ensures var end, current := TrackAll(t, RenderFile(edit)), CurrentAfter(t.file, edit);
            end.file == current && end.changed == t.changed + Piece(current, edit)
  {
    var header, body := GitHeader(edit), PrintHunks(HunksOf(0, 0, edit.segments));
    var inFile := Track(t, header);
    TrackAppend(t, [header], edit.preamble + body);
    TrackOne(t, header);
    TrackAfterHeader(inFile, edit.preamble, body);
    TrackGitHeader(t, edit);
    TrackSegments(inFile, edit);
  }

  lemma {:induction false} TrackDiff(t: Tracker, edits: seq<FileEdit>)
    requires QuietPreambles(edits)
    ensures TrackAll(t, RenderDiff(edits)).changed == t.changed + Flatten(Pieces(t.file, edits))
    decreases |edits|
  {
    if edits == [] {
      TrackOne(t, "");
      AppendNothing(t.changed);
    } else {
      var end := TrackAll(t, RenderFile(edits[0]));
      TrackFile(t, edits[0]);
      TrackDiff(end, edits[1..]);
      TrackAppend(t, RenderFile(edits[0]), RenderDiff(edits[1..]));
      var current := CurrentAfter(t.file, edits[0]);
      FlattenFirst(Piece(current, edits[0]), Pieces(current, edits[1..]));
      AppendIsAssociative(t.changed, Piece(current, edits[0]), Flatten(Pieces(current, edits[1..])));
    }
  }

  lemma FlattenFirst<T>(first: seq<T>, rest: seq<seq<T>>)
    ensures Flatten([first] + rest) == first + Flatten(rest)
  {
    assert ([first] + rest)[1..] == rest;
  }

  /** Whatever the headers, each edit's lines are collected under the file current after its own header. */
  lemma DiffIsCollected(edits: seq<FileEdit>)
    requires QuietPreambles(edits)
    ensures TrackAll(START, RenderDiff(edits)).changed == Flatten(Pieces("", edits))
  {
    TrackDiff(START, edits);
    assert [] + Flatten(Pieces("", edits)) == Flatten(Pieces("", edits));
  }

  // ----- against the new files themselves -----

  lemma {:induction false} SelectAppend(file: string, before: nat, a: seq<string>, b: seq<string>, aAdded: seq<bool>,
      bAdded: seq<bool>)
    requires |a| == |aAdded| && |b| == |bAdded|
    ensures Select(file, before, a + b, aAdded + bAdded)
            == Select(file, before, a, aAdded) + Select(file, before + |a|, b, bAdded)
    decreases |a|
  {
    if a == [] {
      assert a + b == b && aAdded + bAdded == bAdded;
    } else {
      TailOfAppend(a, b);
      TailOfAppend(aAdded, bAdded);
      SelectAppend(file, before + 1, a[1..], b, aAdded[1..], bAdded);
      AppendIsAssociative(if aAdded[0] then [ChangedLine(file, before + 1, a[0])] else [],
                          Select(file, before + 1, a[1..], aAdded[1..]), Select(file, before + |a|, b, bAdded));
    }
  }

  lemma {:induction false} SelectKept(file: string, before: nat, kept: seq<string>, added: seq<bool>)
    requires |kept| == |added| && forall i :: 0 <= i < |added| ==> !added[i]
    ensures Select(file, before, kept, added) == []
    decreases |kept|
  {
    if kept != [] {
      SelectKept(file, before + 1, kept[1..], added[1..]);
    }
  }

  /** Added lines are all collected, under the right numbers, exactly when none of them is skipped. */
  lemma {:induction false} SelectAddedIff(file: string, before: nat, lines: seq<string>, added: seq<bool>)
    requires |lines| == |added| && forall i :: 0 <= i < |added| ==> added[i]
    ensures |Seen(file, before + 1, lines)| <= |Select(file, before, lines, added)|
    ensures Seen(file, before + 1, lines) == Select(file, before, lines, added)
            <==> forall i :: 0 <= i < |lines| ==> !Skipped(lines[i])
    decreases |lines|
  {
    if lines != [] {
      var rest := lines[1..];
      SeenShorter(file, before + 1, before + 2, rest);
      SelectAddedIff(file, before + 1, rest, added[1..]);
      assert Select(file, before, lines, added)[1..] == Select(file, before + 1, rest, added[1..]);
      assert !Skipped(lines[0]) ==> Seen(file, before + 1, lines)[1..] == Seen(file, before + 2, rest);
      assert forall i :: 0 <= i < |rest| ==> rest[i] == lines[i + 1];
      if forall i :: 0 <= i < |rest| ==> !Skipped(rest[i]) {
        forall i | 0 < i < |lines| ensures !Skipped(lines[i]) {
          assert lines[i] == rest[i - 1];
        }
      }
    }
  }

  lemma {:induction false} SeenShorter(file: string, a: nat, b: nat, lines: seq<string>)
    ensures |Seen(file, a, lines)| == |Seen(file, b, lines)|
    decreases |lines|
  {
    if lines != [] {
      SeenShorter(file, if Skipped(lines[0]) then a else a + 1, if Skipped(lines[0]) then b else b + 1, lines[1..]);
    }
  }

  lemma TwoParts(a: seq<ChangedLine>, b: seq<ChangedLine>, x: seq<ChangedLine>, y: seq<ChangedLine>)
    requires |a| <= |x| && |b| <= |y|
    ensures a + b == x + y <==> a == x && b == y
  {
    if a + b == x + y {
      assert |a + b| == |a| + |b| && |x + y| == |x| + |y|;
      assert a == (a + b)[..|a|] && b == (a + b)[|a|..];
      assert x == (x + y)[..|x|] && y == (x + y)[|x|..];
    }
  }

  function Selected(file: string, before: nat, segments: seq<Segment>): seq<ChangedLine> {
    AdditionsCover(segments);
    Select(file, before, NewFile(segments), Additions(segments))
  }

  function AllAdded(file: string, before: nat, lines: seq<string>): seq<ChangedLine> {
    Select(file, before, lines, seq(|lines|, _ => true))
  }

  lemma SelectedFirst(file: string, before: nat, segments: seq<Segment>)
    requires segments != []
    ensures var s := segments[0];
            Selected(file, before, segments)
            == AllAdded(file, before + |s.kept|, s.added) + Selected(file, before + |s.kept| + |s.added|, segments[1..])
  {
    AdditionsCover(segments[1..]);
    SelectBlock(file, before, segments[0].kept, segments[0].added, NewFile(segments[1..]), Additions(segments[1..]));
  }

  lemma SelectBlock(file: string, before: nat, kept: seq<string>, added: seq<string>,
                                       rest: seq<string>, flags: seq<bool>)
    requires |rest| == |flags|
    ensures Select(file, before, kept + added + rest, seq(|kept|, _ => false) + seq(|added|, _ => true) + flags)
            == AllAdded(file, before + |kept|, added) + Select(file, before + |kept| + |added|, rest, flags)
  {
    var no, yes := seq(|kept|, _ => false), seq(|added|, _ => true);
    SelectAppend(file, before, kept + added, rest, no + yes, flags);
    SelectAppend(file, before, kept, added, no, yes);
    SelectKept(file, before, kept, no);
  }

  predicate NoneSkipped(lines: seq<string>) {
    forall i :: 0 <= i < |lines| ==> !Skipped(lines[i])
  }

  lemma AllAddedIff(file: string, before: nat, lines: seq<string>)
    ensures |Seen(file, before + 1, lines)| <= |AllAdded(file, before, lines)|
    ensures Seen(file, before + 1, lines) == AllAdded(file, before, lines) <==> NoneSkipped(lines)
  {
    SelectAddedIff(file, before, lines, seq(|lines|, _ => true));
  }

  predicate AllSeen(segments: seq<Segment>) {
    segments == [] || (NoneSkipped(segments[0].added) && AllSeen(segments[1..]))
  }

  lemma {:induction false} HunkSegments(oldBefore: nat, before: nat, segments: seq<Segment>)
    ensures SegmentsOf(HunksOf(oldBefore, before, segments)) == segments
    decreases |segments|
  {
    if segments != [] {
      var s := segments[0];
      HunkSegments(oldBefore + |s.kept| + |s.removed|, before + |s.kept| + |s.added|, segments[1..]);
    }
  }

  function SegmentsOf(hunks: seq<Hunk>): seq<Segment> {
    if hunks == [] then [] else [hunks[0].segment] + SegmentsOf(hunks[1..])
  }

  function AddedHunks(file: string, hunks: seq<Hunk>): seq<ChangedLine> {
    if hunks == [] then []
    else AllAdded(file, hunks[0].newBefore, hunks[0].segment.added) + AddedHunks(file, hunks[1..])
  }

  lemma {:induction false} SelectedIsHunks(file: string, oldBefore: nat, before: nat, segments: seq<Segment>)
    ensures Selected(file, before, segments) == AddedHunks(file, HunksOf(oldBefore, before, segments))
    decreases |segments|
  {
    if segments == [] {
      assert Selected(file, before, segments) == [];
    } else {
      var s := segments[0];
      SelectedFirst(file, before, segments);
      SelectedIsHunks(file, oldBefore + |s.kept| + |s.removed|, before + |s.kept| + |s.added|, segments[1..]);
    }
  }

  lemma {:induction false} HunksSeenIff(file: string, hunks: seq<Hunk>)
    ensures |SeenHunks(file, hunks)| <= |AddedHunks(file, hunks)|
    ensures SeenHunks(file, hunks) == AddedHunks(file, hunks) <==> AllSeen(SegmentsOf(hunks))
  {
    if hunks != [] {
      var h := hunks[0];
      HunksSeenIff(file, hunks[1..]);
      AllAddedIff(file, h.newBefore, h.segment.added);
      TwoParts(SeenHunk(file, h), SeenHunks(file, hunks[1..]),
               AllAdded(file, h.newBefore, h.segment.added), AddedHunks(file, hunks[1..]));
    }
  }

  lemma SegmentsSeenIff(file: string, segments: seq<Segment>)
    ensures SeenHunks(file, HunksOf(0, 0, segments)) == Selected(file, 0, segments) <==> AllSeen(segments)
  {
    HunkSegments(0, 0, segments);
    SelectedIsHunks(file, 0, 0, segments);
    HunksSeenIff(file, HunksOf(0, 0, segments));
  }

  // ----- edit by edit: when what is collected is what was added -----

  predicate NoAdditions(segments: seq<Segment>) {
    segments == [] || (segments[0].added == [] && NoAdditions(segments[1..]))
  }

  predicate AllSkipped(lines: seq<string>) {
    lines == [] || (Skipped(lines[0]) && AllSkipped(lines[1..]))
  }

  predicate NothingSeen(segments: seq<Segment>) {
    segments == [] || (AllSkipped(segments[0].added) && NothingSeen(segments[1..]))
  }

  /**
   * The header has left the right file current: the edit's own, or none if it is not checked; and no added
   * line starts with `++`. An edit with nothing to collect or to expect may have any file current.
   */
  predicate ReadRight(current: string, edit: FileEdit) {
    if IsRelevant(edit.name.path)
    then AllSeen(edit.segments) && (current == edit.name.path || NoAdditions(edit.segments))
    else current == "" || NothingSeen(edit.segments)
  }

  lemma {:induction false} SeenIsNoneIff(file: string, line: nat, added: seq<string>)
    ensures Seen(file, line, added) == [] <==> AllSkipped(added)
    decreases |added|
  {
    if added != [] {
      SeenIsNoneIff(file, line, added[1..]);
    }
  }

  lemma {:induction false} SeenHunksIsNoneIff(file: string, hunks: seq<Hunk>)
    ensures SeenHunks(file, hunks) == [] <==> NothingSeen(SegmentsOf(hunks))
  {
    if hunks != [] {
      SeenIsNoneIff(file, hunks[0].newBefore + 1, hunks[0].segment.added);
      SeenHunksIsNoneIff(file, hunks[1..]);
    }
  }

  lemma PieceIsNoneIff(current: string, edit: FileEdit)
    ensures Piece(current, edit) == [] <==> current == "" || NothingSeen(edit.segments)
  {
    HunkSegments(0, 0, edit.segments);
    SeenHunksIsNoneIff(current, HunksOf(0, 0, edit.segments));
  }

  lemma {:induction false} SelectedIsNoneIff(file: string, before: nat, segments: seq<Segment>)
    ensures Selected(file, before, segments) == [] <==> NoAdditions(segments)
    decreases |segments|
  {
    if segments != [] {
      var s := segments[0];
      SelectedFirst(file, before, segments);
      AllAddedLength(file, before + |s.kept|, s.added);
      SelectedIsNoneIff(file, before + |s.kept| + |s.added|, segments[1..]);
    }
  }

  lemma AllAddedLength(file: string, before: nat, lines: seq<string>)
    ensures |AllAdded(file, before, lines)| == |lines|
  {
    SelectLength(file, before, lines, seq(|lines|, _ => true));
  }

  lemma {:induction false} SelectLength(file: string, before: nat, lines: seq<string>, added: seq<bool>)
    requires |lines| == |added| && forall i :: 0 <= i < |added| ==> added[i]
    ensures |Select(file, before, lines, added)| == |lines|
    decreases |lines|
  {
    if lines != [] {
      SelectLength(file, before + 1, lines[1..], added[1..]);
    }
  }

  lemma {:induction false} NoAdditionsNoneSeen(segments: seq<Segment>)
    requires NoAdditions(segments)
    ensures NothingSeen(segments) && AllSeen(segments)
  {
    if segments != [] {
      NoAdditionsNoneSeen(segments[1..]);
    }
  }

  predicate Labelled(file: string, lines: seq<ChangedLine>) {
    forall c :: c in lines ==> c.file == file
  }

  lemma {:induction false} SelectLabels(file: string, before: nat, lines: seq<string>, added: seq<bool>)
    requires |lines| == |added|
    ensures Labelled(file, Select(file, before, lines, added))
    decreases |lines|
  {
    if lines != [] {
      SelectLabels(file, before + 1, lines[1..], added[1..]);
    }
  }

  lemma {:induction false} SeenLabels(file: string, line: nat, added: seq<string>)
    ensures Labelled(file, Seen(file, line, added))
    ensures forall c :: c in Seen(file, line, added) ==> !Skipped(c.content)
    decreases |added|
  {
    if added != [] {
      SeenLabels(file, if Skipped(added[0]) then line else line + 1, added[1..]);
    }
  }

  lemma {:induction false} SeenHunksLabels(file: string, hunks: seq<Hunk>)
    ensures Labelled(file, SeenHunks(file, hunks))
    ensures forall c :: c in SeenHunks(file, hunks) ==> !Skipped(c.content)
  {
    if hunks != [] {
      SeenLabels(file, hunks[0].newBefore + 1, hunks[0].segment.added);
      SeenHunksLabels(file, hunks[1..]);
    }
  }

  lemma PieceLabels(current: string, edit: FileEdit)
    ensures Labelled(current, Piece(current, edit))
    ensures forall c :: c in Piece(current, edit) ==> !Skipped(c.content)
  {
    SeenHunksLabels(current, HunksOf(0, 0, edit.segments));
  }

  lemma AddedLabels(edit: FileEdit)
    ensures Labelled(edit.name.path, AddedTo(edit))
  {
    AdditionsCover(edit.segments);
    SelectLabels(edit.name.path, 0, NewFile(edit.segments), Additions(edit.segments));
  }

  lemma OneLabel(file: string, other: string, lines: seq<ChangedLine>)
    requires Labelled(file, lines) && Labelled(other, lines) && file != other
    ensures lines == []
  {
    if lines != [] {
      HasMember(lines);
      assert false;
    }
  }

  /** What is collected from an edit is what it added exactly when the edit is read right. */
  lemma PieceIsRightIff(current: string, edit: FileEdit)
    ensures Piece(current, edit) == AddedTo(edit) <==> ReadRight(current, edit)
  {
    var path := edit.name.path;
    PieceIsNoneIff(current, edit);
    if IsRelevant(path) {
      assert AddedTo(edit) == Selected(path, 0, edit.segments);
      SelectedIsNoneIff(path, 0, edit.segments);
      if current == path {
        SegmentsSeenIff(path, edit.segments);
      } else {
        PieceOfAnother(current, edit);
      }
    }
  }

  lemma PieceOfAnother(current: string, edit: FileEdit)
    requires current != edit.name.path
    ensures Piece(current, edit) == AddedTo(edit) ==> AddedTo(edit) == []
    ensures NoAdditions(edit.segments) ==> Piece(current, edit) == [] && AllSeen(edit.segments)
  {
    PieceLabels(current, edit);
    AddedLabels(edit);
    if Piece(current, edit) == AddedTo(edit) {
      OneLabel(current, edit.name.path, AddedTo(edit));
    }
    if NoAdditions(edit.segments) {
      NoAdditionsNoneSeen(edit.segments);
      PieceIsNoneIff(current, edit);
    }
  }

  predicate AllRight(file: string, edits: seq<FileEdit>)
    decreases |edits|
  {
    edits == [] ||
    (ReadRight(CurrentAfter(file, edits[0]), edits[0]) && AllRight(CurrentAfter(file, edits[0]), edits[1..]))
  }

  /** For every diff: each edit's added lines are collected as they are exactly when each edit is read right. */
  lemma {:induction false} PiecesAreRightIff(file: string, edits: seq<FileEdit>)
    ensures Pieces(file, edits) == ExpectedPieces(edits) <==> AllRight(file, edits)
    decreases |edits|
  {
    if edits != [] {
      var current := CurrentAfter(file, edits[0]);
      PieceIsRightIff(current, edits[0]);
      PiecesAreRightIff(current, edits[1..]);
      SameFirstAndRest(Piece(current, edits[0]), Pieces(current, edits[1..]),
                       AddedTo(edits[0]), ExpectedPieces(edits[1..]));
    }
  }

  lemma SameFirstAndRest<T>(a: T, b: seq<T>, x: T, y: seq<T>)
    ensures [a] + b == [x] + y <==> a == x && b == y
  {
    assert ([a] + b)[1..] == b && ([x] + y)[1..] == y;
    assert ([a] + b)[0] == a && ([x] + y)[0] == x;
  }

  // ----- with context -----

  lemma BodyLineIsTracked(t: Tracker, line: BodyLine)
    requires t.file != "" && (line.Added? ==> !("++" <= line.text))
    ensures Track(t, PrintLine(line))
            == match line
               case Kept(_) => t.(line := t.line + 1)
               case Removed(_) => t
               case Added(text) => Tracker(t.file, t.line + 1, t.changed + [ChangedLine(t.file, t.line, text)])
  {
    var printed := PrintLine(line);
    assert printed[0] == (if line.Kept? then ' ' else if line.Removed? then '-' else '+');
    assert printed[1..] == line.text;
    assert GIT_HEADER[0] == 'd' && "@@"[0] == '@' && "+++"[1..] == "++";
  }

  lemma TrackBodyLine(t: Tracker, line: BodyLine, rest: seq<BodyLine>)
    ensures TrackAll(t, PrintBody([line] + rest)) == TrackAll(Track(t, PrintLine(line)), PrintBody(rest))
  {
    assert ([line] + rest)[1..] == rest;
  }

  /** Where the tracker should be after the lines of a hunk. */
  function Numbered(t: Tracker, body: seq<BodyLine>): Tracker
    requires t.line > 0
  {
    Tracker(t.file, t.line + |NewLines(body)|,
            t.changed + Select(t.file, t.line - 1, NewLines(body), AddedFlags(body)))
  }

  lemma NumberedNext(t: Tracker, line: BodyLine, rest: seq<BodyLine>)
    requires t.file != "" && t.line > 0 && (line.Added? ==> !("++" <= line.text))
    ensures Track(t, PrintLine(line)).line > 0
    ensures Numbered(t, [line] + rest) == Numbered(Track(t, PrintLine(line)), rest)
  {
    BodyLineIsTracked(t, line);
    SelectNext(t, line, rest);
    AppendNothing(t.changed);
  }

  /** Whatever the context, added lines of a hunk are reported with their numbers in the new file. */
  lemma {:induction false} BodyIsNumbered(t: Tracker, body: seq<BodyLine>)
    requires t.file != "" && t.line > 0
    requires forall line :: line in body && line.Added? ==> !("++" <= line.text)
    ensures TrackAll(t, PrintBody(body)) == Numbered(t, body)
    decreases |body|
  {
    if body == [] {
      AppendNothing(t.changed);
    } else {
      var line, rest := body[0], body[1..];
      assert body == [line] + rest;
      BodyLineIsTracked(t, line);
      TrackBodyLine(t, line, rest);
      NumberedNext(t, line, rest);
      BodyIsNumbered(Track(t, PrintLine(line)), rest);
    }
  }

  lemma SelectNext(t: Tracker, line: BodyLine, rest: seq<BodyLine>)
    requires t.line > 0
    ensures |NewLines([line] + rest)| == |NewLines(rest)| + if line.Removed? then 0 else 1
    ensures var body := [line] + rest;
            var first := if line.Added? then [ChangedLine(t.file, t.line, line.text)] else [];
            var from := if line.Removed? then t.line - 1 else t.line;
            t.changed + Select(t.file, t.line - 1, NewLines(body), AddedFlags(body))
            == t.changed + first + Select(t.file, from, NewLines(rest), AddedFlags(rest))
  {
    var body := [line] + rest;
    assert body[1..] == rest;
    if line.Removed? {
      assert NewLines(body) == NewLines(rest) && AddedFlags(body) == AddedFlags(rest);
      AppendNothing(t.changed);
    } else {
      assert NewLines(body)[1..] == NewLines(rest) && AddedFlags(body)[1..] == AddedFlags(rest);
      AppendIsAssociative(t.changed, if line.Added? then [ChangedLine(t.file, t.line, line.text)] else [],
                          Select(t.file, t.line, NewLines(rest), AddedFlags(rest)));
    }
  }
}
