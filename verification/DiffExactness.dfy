/** When the whole result for a diff is right: the lines of one edit cannot make up for those of another. */
module DiffExactness {
  import opened Outcomes
  import opened Sequences
  import opened DiffTracker
  import opened GitDiff
  import opened DiffHeaders
  import opened DiffReading

  // ----- edits by position -----

  /** The file current after each header. */
  function Currents(file: string, edits: seq<FileEdit>): seq<string>
    decreases |edits|
  {
    if edits == [] then []
    else
      var current := CurrentAfter(file, edits[0]);
      [current] + Currents(current, edits[1..])
  }

  lemma {:induction false} SameLengths(file: string, edits: seq<FileEdit>)
    ensures |Currents(file, edits)| == |Pieces(file, edits)| == |ExpectedPieces(edits)| == |edits|
    decreases |edits|
  {
    if edits != [] {
      SameLengths(CurrentAfter(file, edits[0]), edits[1..]);
    }
  }

  lemma {:induction false} PieceAt(file: string, edits: seq<FileEdit>, i: nat)
    requires i < |edits| == |Currents(file, edits)| == |Pieces(file, edits)|
    ensures Pieces(file, edits)[i] == Piece(Currents(file, edits)[i], edits[i])
    decreases |edits|
  {
    if i > 0 {
      PieceAt(CurrentAfter(file, edits[0]), edits[1..], i - 1);
    }
  }

  lemma {:induction false} ExpectedAt(edits: seq<FileEdit>, i: nat)
    requires i < |edits| == |ExpectedPieces(edits)|
    ensures ExpectedPieces(edits)[i] == AddedTo(edits[i])
  {
    if i > 0 {
      ExpectedAt(edits[1..], i - 1);
    }
  }

  lemma ByPosition(file: string, edits: seq<FileEdit>)
    ensures |Currents(file, edits)| == |Pieces(file, edits)| == |ExpectedPieces(edits)| == |edits|
    ensures forall i :: 0 <= i < |edits| ==> Pieces(file, edits)[i] == Piece(Currents(file, edits)[i], edits[i])
    ensures forall i :: 0 <= i < |edits| ==> ExpectedPieces(edits)[i] == AddedTo(edits[i])
  {
    SameLengths(file, edits);
    forall i | 0 <= i < |edits| ensures Pieces(file, edits)[i] == Piece(Currents(file, edits)[i], edits[i]) {
      PieceAt(file, edits, i);
    }
    forall i | 0 <= i < |edits| ensures ExpectedPieces(edits)[i] == AddedTo(edits[i]) {
      ExpectedAt(edits, i);
    }
  }

  lemma {:induction false} AllRightByPosition(file: string, edits: seq<FileEdit>)
    requires |Currents(file, edits)| == |edits|
    ensures AllRight(file, edits) <==> forall i :: 0 <= i < |edits| ==> ReadRight(Currents(file, edits)[i], edits[i])
    decreases |edits|
  {
    if edits != [] {
      var current := CurrentAfter(file, edits[0]);
      var currents, rest := Currents(file, edits), Currents(current, edits[1..]);
      AllRightByPosition(current, edits[1..]);
      assert currents == [current] + rest;
      if forall i :: 0 <= i < |edits| ==> ReadRight(currents[i], edits[i]) {
        forall i | 0 <= i < |rest| ensures ReadRight(rest[i], edits[1..][i]) {
          assert ReadRight(currents[i + 1], edits[i + 1]);
        }
      }
    }
  }

  /** The `j`-th header has been read as `path`. */
  predicate ReadAs(edits: seq<FileEdit>, j: nat, path: string) {
    j < |edits| && HeaderPath(GitHeader(edits[j])) == Some(path) && IsRelevant(path)
  }

  lemma FirstOrigin(file: string, edits: seq<FileEdit>)
    requires edits != [] && CurrentAfter(file, edits[0]) != ""
    ensures if HeaderPath(GitHeader(edits[0])).Some? then ReadAs(edits, 0, CurrentAfter(file, edits[0]))
            else CurrentAfter(file, edits[0]) == file
  {
  }

  lemma ReadAsLater(edits: seq<FileEdit>, j: nat, path: string)
    requires edits != [] && ReadAs(edits[1..], j, path)
    ensures ReadAs(edits, j + 1, path)
  {
  }

  lemma CurrentsFirst(file: string, edits: seq<FileEdit>)
    requires edits != []
    ensures Currents(file, edits)[0] == CurrentAfter(file, edits[0])
    ensures Currents(file, edits)[1..] == Currents(CurrentAfter(file, edits[0]), edits[1..])
  {
  }

  /** A current file comes from the last header that was read, or from before the diff. */
  lemma {:induction false} CurrentOrigin(file: string, edits: seq<FileEdit>, i: nat) returns (j: int)
    requires i < |edits| && i < |Currents(file, edits)| && Currents(file, edits)[i] != ""
    ensures -1 <= j <= i
    ensures j == -1 ==> Currents(file, edits)[i] == file
    ensures j >= 0 ==>
              ReadAs(edits, j, Currents(file, edits)[i]) && Currents(file, edits)[j] == Currents(file, edits)[i]
    decreases |edits|
  {
    CurrentsFirst(file, edits);
    j := -1;
    if i > 0 {
      j := CurrentOrigin(CurrentAfter(file, edits[0]), edits[1..], i - 1);
    }
    if j >= 0 {
      ReadAsLater(edits, j, Currents(file, edits)[i]);
      j := j + 1;
    } else {
      FirstOrigin(file, edits);
      j := if HeaderPath(GitHeader(edits[0])).Some? then 0 else -1;
    }
  }

  // ----- counting lines of a file -----

  function CountOf(file: string, lines: seq<ChangedLine>): nat {
    if lines == [] then 0 else (if lines[0].file == file then 1 else 0) + CountOf(file, lines[1..])
  }

  lemma {:induction false} CountAppend(file: string, a: seq<ChangedLine>, b: seq<ChangedLine>)
    ensures CountOf(file, a + b) == CountOf(file, a) + CountOf(file, b)
  {
    if a == [] {
      assert a + b == b;
    } else {
      TailOfAppend(a, b);
      CountAppend(file, a[1..], b);
    }
  }

  lemma {:induction false} CountLabelled(file: string, owner: string, lines: seq<ChangedLine>)
    requires Labelled(owner, lines)
    ensures CountOf(file, lines) == if file == owner then |lines| else 0
  {
    if lines != [] {
      assert lines[0] in lines;
      assert forall c :: c in lines[1..] ==> c in lines;
      CountLabelled(file, owner, lines[1..]);
    }
  }

  lemma {:induction false} CountAtLeast(file: string, pieces: seq<seq<ChangedLine>>, i: nat)
    requires i < |pieces|
    ensures CountOf(file, Flatten(pieces)) >= CountOf(file, pieces[i])
  {
    CountAppend(file, pieces[0], Flatten(pieces[1..]));
    if i > 0 {
      CountAtLeast(file, pieces[1..], i - 1);
    }
  }

  lemma {:induction false} CountAtLeastTwo(file: string, pieces: seq<seq<ChangedLine>>, i: nat, j: nat)
    requires i < j < |pieces|
    ensures CountOf(file, Flatten(pieces)) >= CountOf(file, pieces[i]) + CountOf(file, pieces[j])
  {
    CountAppend(file, pieces[0], Flatten(pieces[1..]));
    if i > 0 {
      CountAtLeastTwo(file, pieces[1..], i - 1, j - 1);
    } else {
      CountAtLeast(file, pieces[1..], j - 1);
    }
  }

  lemma {:induction false} CountNone(file: string, pieces: seq<seq<ChangedLine>>)
    requires forall i :: 0 <= i < |pieces| ==> CountOf(file, pieces[i]) == 0
    ensures CountOf(file, Flatten(pieces)) == 0
  {
    if pieces != [] {
      CountAppend(file, pieces[0], Flatten(pieces[1..]));
      CountNone(file, pieces[1..]);
    }
  }

  lemma {:induction false} CountSole(file: string, pieces: seq<seq<ChangedLine>>, k: nat)
    requires k < |pieces| && forall i :: 0 <= i < |pieces| && i != k ==> CountOf(file, pieces[i]) == 0
    ensures CountOf(file, Flatten(pieces)) == CountOf(file, pieces[k])
  {
    CountAppend(file, pieces[0], Flatten(pieces[1..]));
    if k > 0 {
      assert CountOf(file, pieces[0]) == 0;
      CountSole(file, pieces[1..], k - 1);
    } else {
      CountNone(file, pieces[1..]);
    }
  }

  lemma {:induction false} FlattenHas(pieces: seq<seq<ChangedLine>>, i: nat, c: ChangedLine)
    requires i < |pieces| && c in pieces[i]
    ensures c in Flatten(pieces)
  {
    if i > 0 {
      FlattenHas(pieces[1..], i - 1, c);
    }
  }

  lemma {:induction false} FlattenFrom(pieces: seq<seq<ChangedLine>>, c: ChangedLine) returns (i: nat)
    requires c in Flatten(pieces)
    ensures i < |pieces| && c in pieces[i]
  {
    if c in pieces[0] {
      i := 0;
    } else {
      i := FlattenFrom(pieces[1..], c);
      i := i + 1;
    }
  }

  // ----- the condition for a whole diff -----

  /** Git prints each path once. */
  ghost predicate DistinctPaths(edits: seq<FileEdit>) {
    forall i, j :: 0 <= i < j < |edits| ==> edits[i].name.path != edits[j].name.path
  }

  /** No header is misread as the path of another edit. */
  ghost predicate NoCrossReading(edits: seq<FileEdit>) {
    forall i: nat, j: nat :: i < |edits| && ReadAs(edits, j, edits[i].name.path) ==> i == j
  }

  lemma ExpectedCount(edits: seq<FileEdit>, k: nat)
    requires k < |edits| && DistinctPaths(edits)
    ensures CountOf(edits[k].name.path, Expected(edits)) == |AddedTo(edits[k])|
  {
    ByPosition("", edits);
    forall i | 0 <= i < |edits|
      ensures CountOf(edits[k].name.path, ExpectedPieces(edits)[i]) == if i == k then |AddedTo(edits[k])| else 0
    {
      AddedLabels(edits[i]);
      CountLabelled(edits[k].name.path, edits[i].name.path, AddedTo(edits[i]));
    }
    CountSole(edits[k].name.path, ExpectedPieces(edits), k);
  }

  lemma UnknownCount(edits: seq<FileEdit>, file: string)
    requires forall k :: 0 <= k < |edits| ==> edits[k].name.path != file
    ensures CountOf(file, Expected(edits)) == 0
  {
    ByPosition("", edits);
    forall i | 0 <= i < |edits| ensures CountOf(file, ExpectedPieces(edits)[i]) == 0 {
      AddedLabels(edits[i]);
      CountLabelled(file, edits[i].name.path, AddedTo(edits[i]));
    }
    CountNone(file, ExpectedPieces(edits));
  }

  lemma {:induction false} SkippedIsExpected(file: string, before: nat, segments: seq<Segment>) returns (c: ChangedLine)
    requires !AllSeen(segments)
    ensures c in Selected(file, before, segments) && Skipped(c.content)
    decreases |segments|
  {
    var s := segments[0];
    SelectedFirst(file, before, segments);
    if NoneSkipped(s.added) {
      c := SkippedIsExpected(file, before + |s.kept| + |s.added|, segments[1..]);
    } else {
      c := SkippedIsAdded(file, before + |s.kept|, s.added);
    }
  }

  lemma SkippedIsAdded(file: string, before: nat, added: seq<string>) returns (c: ChangedLine)
    requires !NoneSkipped(added)
    ensures c in AllAdded(file, before, added) && Skipped(c.content)
  {
    var i :| 0 <= i < |added| && Skipped(added[i]);
    AddedAt(file, before, added, seq(|added|, _ => true), i);
    c := AllAdded(file, before, added)[i];
  }

  lemma {:induction false} AddedAt(file: string, before: nat, lines: seq<string>, added: seq<bool>, i: nat)
    requires |lines| == |added| && i < |lines| && forall k :: 0 <= k < |added| ==> added[k]
    ensures |Select(file, before, lines, added)| == |lines|
    ensures Select(file, before, lines, added)[i].content == lines[i]
    decreases |lines|
  {
    if i > 0 {
      AddedAt(file, before + 1, lines[1..], added[1..], i - 1);
    } else {
      SelectLength(file, before, lines, added);
    }
  }

  /** Nothing that is skipped is collected, so a right result means no checked file gains such a line. */
  lemma RightSkipsNothing(edits: seq<FileEdit>, i: nat)
    requires i < |edits| && Flatten(Pieces("", edits)) == Expected(edits) && IsRelevant(edits[i].name.path)
    ensures AllSeen(edits[i].segments)
  {
    ByPosition("", edits);
    if !AllSeen(edits[i].segments) {
      var c := SkippedIsExpected(edits[i].name.path, 0, edits[i].segments);
      FlattenHas(ExpectedPieces(edits), i, c);
      var m := FlattenFrom(Pieces("", edits), c);
      PieceLabels(Currents("", edits)[m], edits[m]);
    }
  }

  lemma UnknownFileCollectsNothing(edits: seq<FileEdit>, i: nat)
    requires i < |edits| == |Currents("", edits)| && Flatten(Pieces("", edits)) == Expected(edits)
    requires forall k :: 0 <= k < |edits| ==> edits[k].name.path != Currents("", edits)[i]
    ensures Piece(Currents("", edits)[i], edits[i]) == []
  {
    var current := Currents("", edits)[i];
    ByPosition("", edits);
    PieceLabels(current, edits[i]);
    CountLabelled(current, current, Piece(current, edits[i]));
    CountAtLeast(current, Pieces("", edits), i);
    UnknownCount(edits, current);
  }

  /** An edit whose lines are collected has its own path current. */
  lemma RightKeepsApart(edits: seq<FileEdit>, i: nat)
    requires i < |edits| == |Currents("", edits)| && DistinctPaths(edits) && NoCrossReading(edits)
    requires Flatten(Pieces("", edits)) == Expected(edits)
    requires Piece(Currents("", edits)[i], edits[i]) != []
    ensures Currents("", edits)[i] == edits[i].name.path
  {
    var current := Currents("", edits)[i];
    if forall k :: 0 <= k < |edits| ==> edits[k].name.path != current {
      UnknownFileCollectsNothing(edits, i);
    } else {
      var k: nat :| k < |edits| && edits[k].name.path == current;
      var j := CurrentOrigin("", edits, i);
      assert ReadAs(edits, j, edits[k].name.path);
      if k != i {
        OwnLinesLeaveNoRoom(edits, k, i);
      }
    }
  }

  /** Lines collected elsewhere under a file that is read right are too many. */
  lemma OwnLinesLeaveNoRoom(edits: seq<FileEdit>, j: nat, i: nat)
    requires j < i < |edits| && DistinctPaths(edits) && |Currents("", edits)| == |edits|
    requires Flatten(Pieces("", edits)) == Expected(edits)
    requires IsRelevant(edits[j].name.path) && edits[j].name.path == Currents("", edits)[j] == Currents("", edits)[i]
    ensures Piece(Currents("", edits)[i], edits[i]) == []
  {
    var path, pieces := edits[j].name.path, Pieces("", edits);
    ByPosition("", edits);
    RightSkipsNothing(edits, j);
    PieceIsRightIff(path, edits[j]);
    PieceLabels(path, edits[i]);
    PieceLabels(path, edits[j]);
    CountLabelled(path, path, pieces[i]);
    CountLabelled(path, path, pieces[j]);
    CountAtLeastTwo(path, pieces, j, i);
    ExpectedCount(edits, j);
  }

  /** An edit whose lines are expected has its own path current. */
  lemma RightLosesNothing(edits: seq<FileEdit>, i: nat)
    requires i < |edits| && DistinctPaths(edits) && NoCrossReading(edits)
    requires Flatten(Pieces("", edits)) == Expected(edits)
    requires |Currents("", edits)| == |edits| && AddedTo(edits[i]) != []
    ensures Currents("", edits)[i] == edits[i].name.path
  {
    var path := edits[i].name.path;
    var c := AddedTo(edits[i])[0];
    ByPosition("", edits);
    AddedLabels(edits[i]);
    assert c in AddedTo(edits[i]);
    FlattenHas(ExpectedPieces(edits), i, c);
    var m := FlattenFrom(Pieces("", edits), c);
    PieceLabels(Currents("", edits)[m], edits[m]);
    var j := CurrentOrigin("", edits, m);
    assert ReadAs(edits, j, path);
  }

  /**
   * For a diff with distinct paths, none of them misread from another edit's header, the result is exactly the
   * added lines of the checked files, in order and under their numbers in the new files, if and only if every
   * edit is read right.
   */
  lemma DiffIsReadIff(edits: seq<FileEdit>)
    requires QuietPreambles(edits) && DistinctPaths(edits) && NoCrossReading(edits)
    ensures TrackAll(START, RenderDiff(edits)).changed == Expected(edits) <==> AllRight("", edits)
  {
    DiffIsCollected(edits);
    PiecesAreRightIff("", edits);
    if Flatten(Pieces("", edits)) == Expected(edits) {
      ByPosition("", edits);
      forall i | 0 <= i < |edits| ensures ReadRight(Currents("", edits)[i], edits[i]) {
        RightIsReadRight(edits, i);
      }
      AllRightByPosition("", edits);
    }
  }

  lemma RightIsReadRight(edits: seq<FileEdit>, i: nat)
    requires i < |edits| && DistinctPaths(edits) && NoCrossReading(edits)
    requires Flatten(Pieces("", edits)) == Expected(edits) && |Currents("", edits)| == |edits|
    ensures ReadRight(Currents("", edits)[i], edits[i])
  {
    var current, path := Currents("", edits)[i], edits[i].name.path;
    PieceIsNoneIff(current, edits[i]);
    if Piece(current, edits[i]) != [] {
      RightKeepsApart(edits, i);
      if current != "" {
        var j := CurrentOrigin("", edits, i);
      }
    }
    if IsRelevant(path) {
      RightSkipsNothing(edits, i);
      SelectedIsNoneIff(path, 0, edits[i].segments);
      if AddedTo(edits[i]) != [] {
        RightLosesNothing(edits, i);
      }
    }
  }

  // ----- diffs with ordinary names -----

  /** Names that git does not quote and that do not contain ` b/`. */
  predicate OrdinaryName(edit: FileEdit) {
    && edit.oldName.Plain? && edit.name.Plain? && AsGitPrints(edit.oldName) && AsGitPrints(edit.name)
    && AfterLastNewSide(edit.name.path) == None
  }

  ghost predicate NothingSkipped(edits: seq<FileEdit>) {
    forall edit :: edit in edits && IsRelevant(edit.name.path) ==> AllSeen(edit.segments)
  }

  lemma {:induction false} OrdinaryIsRightIff(file: string, edits: seq<FileEdit>)
    requires forall edit :: edit in edits ==> OrdinaryName(edit)
    ensures AllRight(file, edits) <==> NothingSkipped(edits)
    decreases |edits|
  {
    if edits != [] {
      assert edits[0] in edits && forall edit :: edit in edits <==> edit == edits[0] || edit in edits[1..];
      HeaderIsReadIff(edits[0]);
      OrdinaryIsRightIff(CurrentAfter(file, edits[0]), edits[1..]);
    }
  }

  /** With ordinary names, the result is right if and only if no checked file gains a line that starts with `++`. */
  lemma OrdinaryDiffIsReadIff(edits: seq<FileEdit>)
    requires QuietPreambles(edits) && DistinctPaths(edits) && forall edit :: edit in edits ==> OrdinaryName(edit)
    ensures TrackAll(START, RenderDiff(edits)).changed == Expected(edits) <==> NothingSkipped(edits)
  {
    forall i: nat, j: nat | i < |edits| && ReadAs(edits, j, edits[i].name.path) ensures i == j {
      assert edits[j] in edits;
      HeaderIsReadIff(edits[j]);
    }
    DiffIsReadIff(edits);
    OrdinaryIsRightIff("", edits);
  }
}
