/** Diffs whose added lines are not reported as they are. */
module DiffExamples {
  import opened Outcomes
  import opened Sequences
  import opened DiffTracker
  import opened GitDiff
  import opened DiffHeaders
  import opened DiffReading

  /** Where the checked files live. */
  const SRC := "apps/web/src/"

  /** A new file with the given lines. */
  function NewFileEdit(name: Name, added: seq<string>): FileEdit {
    FileEdit(name, name, [], [Segment([], [], added, "", false, false)])
  }

  // ----- what one and two added lines come to -----

  lemma AddedAsIs(name: Name, added: seq<string>)
    requires IsRelevant(name.path)
    ensures AddedTo(NewFileEdit(name, added)) == AllAdded(name.path, 0, added)
  {
    var segments := NewFileEdit(name, added).segments;
    assert segments[1..] == [];
    assert Selected(name.path, 0, []) == [];
    SelectedFirst(name.path, 0, segments);
    AppendNothing(AllAdded(name.path, 0, added));
  }

  lemma CollectedAsSeen(current: string, name: Name, added: seq<string>)
    requires current != ""
    ensures Piece(current, NewFileEdit(name, added)) == Seen(current, 1, added)
  {
    var segments := NewFileEdit(name, added).segments;
    var hunk := Hunk(0, 0, segments[0]);
    assert segments[1..] == [] && HunksOf(0, |added|, []) == [];
    assert HunksOf(0, 0, segments) == [hunk];
    assert [hunk][1..] == [];
    assert SeenHunks(current, [hunk]) == SeenHunk(current, hunk) + [];
    AppendNothing(SeenHunk(current, hunk));
  }

  lemma OneLine(file: string, text: string)
    ensures AllAdded(file, 0, [text]) == [ChangedLine(file, 1, text)]
    ensures !Skipped(text) ==> Seen(file, 1, [text]) == [ChangedLine(file, 1, text)]
  {
    assert [text][1..] == [];
    assert seq(1, _ => true) == [true] && [true][1..] == [];
    AppendNothing([ChangedLine(file, 1, text)]);
    assert Select(file, 1, [], []) == [];
  }

  lemma OneEdit(file: string, a: FileEdit)
    ensures Flatten(Pieces(file, [a])) == Piece(CurrentAfter(file, a), a)
    ensures Flatten(ExpectedPieces([a])) == AddedTo(a)
  {
    var piece := Piece(CurrentAfter(file, a), a);
    assert [a][1..] == [];
    assert Pieces(file, [a]) == [piece] + [];
    assert ExpectedPieces([a]) == [AddedTo(a)] + [];
    FlattenFirst(piece, []);
    FlattenFirst(AddedTo(a), []);
    AppendNothing(piece);
    AppendNothing(AddedTo(a));
  }

  lemma TwoEdits(a: FileEdit, b: FileEdit)
    ensures var first := CurrentAfter("", a);
            Flatten(Pieces("", [a, b])) == Piece(first, a) + Piece(CurrentAfter(first, b), b)
    ensures Expected([a, b]) == AddedTo(a) + AddedTo(b)
  {
    var first := CurrentAfter("", a);
    assert [a, b][1..] == [b];
    OneEdit(first, b);
    FlattenFirst(Piece(first, a), Pieces(first, [b]));
    FlattenFirst(AddedTo(a), ExpectedPieces([b]));
  }

  // ----- a quoted header -----

  /** A line added to a file with a quoted name after an ordinary one is put down to the ordinary one. */
  lemma QuotedFileIsMistaken(a: string, b: Name, x: string, y: string)
    requires IsRelevant(a) && IsPlainText(a) && AfterLastNewSide(a) == None && IsRelevant(b.path)
    requires b.Quoted? && HeaderPath(Sides(NewFileEdit(b, [y]))) == None
    requires !Skipped(x) && !Skipped(y)
    ensures var edits := [NewFileEdit(Plain(a), [x]), NewFileEdit(b, [y])];
            && TrackAll(START, RenderDiff(edits)).changed == [ChangedLine(a, 1, x), ChangedLine(a, 1, y)]
            && Expected(edits) == [ChangedLine(a, 1, x), ChangedLine(b.path, 1, y)]
  {
    var first, second := NewFileEdit(Plain(a), [x]), NewFileEdit(b, [y]);
    OrdinaryIsCurrent("", first);
    QuotedIsNot(a, second);
    OneLineEdit(a, Plain(a), x);
    OneLineEdit(a, b, y);
    BothUnderFirst(first, second, a);
  }

  lemma BothUnderFirst(first: FileEdit, second: FileEdit, a: string)
    requires CurrentAfter("", first) == a && CurrentAfter(a, second) == a
    requires QuietPreambles([first, second])
    ensures TrackAll(START, RenderDiff([first, second])).changed == Piece(a, first) + Piece(a, second)
    ensures Expected([first, second]) == AddedTo(first) + AddedTo(second)
  {
    DiffIsCollected([first, second]);
    TwoEdits(first, second);
  }

  lemma OrdinaryIsCurrent(file: string, edit: FileEdit)
    requires edit.oldName.Plain? && edit.name.Plain? && AsGitPrints(edit.oldName) && AsGitPrints(edit.name)
    requires IsRelevant(edit.name.path) && AfterLastNewSide(edit.name.path) == None
    ensures CurrentAfter(file, edit) == edit.name.path
  {
    HeaderIsReadIff(edit);
  }

  lemma QuotedIsNot(file: string, edit: FileEdit)
    requires edit.oldName.Quoted? && HeaderPath(Sides(edit)) == None
    ensures CurrentAfter(file, edit) == file
  {
    QuotedHeaderIsReadLater(edit);
  }

  lemma OneLineEdit(current: string, name: Name, text: string)
    requires current != "" && IsRelevant(name.path) && !Skipped(text)
    ensures Piece(current, NewFileEdit(name, [text])) == [ChangedLine(current, 1, text)]
    ensures AddedTo(NewFileEdit(name, [text])) == [ChangedLine(name.path, 1, text)]
  {
    CollectedAsSeen(current, name, [text]);
    AddedAsIs(name, [text]);
    OneLine(current, text);
    OneLine(name.path, text);
  }

  lemma SrcIsPlain()
    ensures IsPlainText(SRC) && ' ' !in SRC
  {
  }

  /** A TypeScript file directly in the checked directory. */
  lemma InSrc(name: string)
    requires |name| > 3 && name[|name| - 3..] == ".ts" && name[|name| - 4] != '/'
    ensures IsRelevant(SRC + name)
  {
    Prefix(SRC, name);
    var path := SRC + name;
    assert path[|path| - 3..] == name[|name| - 3..] && path[|path| - 4] == name[|name| - 4];
    assert FILE_EXTENSIONS[1] == ".ts" && HasExtension(path, FILE_EXTENSIONS[1]);
  }

  lemma PlainInSrc(name: string)
    requires IsPlainText(name) && ' ' !in name
    ensures IsPlainText(SRC + name) && AfterLastNewSide(SRC + name) == None
  {
    SrcIsPlain();
    NoSpaceNoNewSide(SRC + name);
  }

  lemma QuotedSides(name: Name, added: seq<string>)
    requires name.Quoted? && 'd' !in name.escaped
    ensures HeaderPath(Sides(NewFileEdit(name, added))) == None
  {
    NoDNoHeader(Sides(NewFileEdit(name, added)));
  }

  lemma UnusualName(name: string)
    requires name == "\U{00e9}.ts"
    ensures !IsPlainText(SRC + name) && IsRelevant(SRC + name)
  {
    InSrc(name);
    assert (SRC + name)[|SRC|] == name[0] && (SRC + name)[|SRC|] in SRC + name;
  }

  lemma EscapedName(escaped: string)
    requires escaped == "\\303\\251.ts"
    ensures 'd' !in SRC + escaped && forall c :: c in SRC + escaped ==> ' ' <= c <= '~'
  {
    SrcIsPlain();
    assert 'd' !in SRC && 'd' !in escaped;
    assert forall c :: c in escaped ==> ' ' <= c <= '~';
  }

  /** Git prints `é` as two octal escapes, in quotes: a line added to that file is reported for the file before it. */
  lemma QuotedFileExample()
    ensures var a, b := SRC + "a.ts", Quoted(SRC + "\U{00e9}.ts", SRC + "\\303\\251.ts");
            var edits := [NewFileEdit(Plain(a), ["x"]), NewFileEdit(b, ["y"])];
            && AsGitPrints(Plain(a)) && AsGitPrints(b)
            && TrackAll(START, RenderDiff(edits)).changed == [ChangedLine(a, 1, "x"), ChangedLine(a, 1, "y")]
            && Expected(edits) == [ChangedLine(a, 1, "x"), ChangedLine(b.path, 1, "y")]
  {
    var plain, unusual, escaped := "a.ts", "\U{00e9}.ts", "\\303\\251.ts";
    InSrc(plain);
    PlainInSrc(plain);
    UnusualName(unusual);
    EscapedName(escaped);
    QuotedSides(Quoted(SRC + unusual, SRC + escaped), ["y"]);
    QuotedFileIsMistaken(SRC + plain, Quoted(SRC + unusual, SRC + escaped), "x", "y");
  }

  // ----- a path that contains ` b/` -----

  /** Such a path is cut short, here to one outside the checked directory: its line is not reported. */
  lemma PathIsCutShort(directory: string, name: string, text: string)
    requires IsPlainText(directory) && IsPlainText(name) && AfterLastNewSide(name) == None
    requires IsRelevant(directory + (NEW_SIDE + name)) && !IsRelevant(name)
    ensures var path := directory + (NEW_SIDE + name);
            var edits := [NewFileEdit(Plain(path), [text])];
            && TrackAll(START, RenderDiff(edits)).changed == []
            && Expected(edits) == [ChangedLine(path, 1, text)]
  {
    var path := directory + (NEW_SIDE + name);
    var edit := NewFileEdit(Plain(path), [text]);
    LastSideCounts(path, directory, name);
    DiffIsCollected([edit]);
    OneEdit("", edit);
    AddedAsIs(Plain(path), [text]);
    OneLine(path, text);
  }

  lemma LastSideCounts(path: string, directory: string, name: string)
    requires path == directory + (NEW_SIDE + name) && IsPlainText(directory) && IsPlainText(name)
    requires AfterLastNewSide(name) == None
    ensures HeaderPath(GitHeader(NewFileEdit(Plain(path), []))) == Some(name)
  {
    var sides := path + (NEW_SIDE + path);
    LastSideTwice(path, directory, name);
    PlainSides(NewFileEdit(Plain(path), []));
    NoTerminator(sides);
    SidesAreRead(sides);
  }

  lemma LastSideTwice(path: string, directory: string, name: string)
    requires path == directory + (NEW_SIDE + name) && AfterLastNewSide(name) == None
    ensures AfterLastNewSide(path + (NEW_SIDE + path)) == Some(name)
  {
    NewSideHere(name);
    LastNewSideStays(directory, NEW_SIDE + name);
    NewSideHere(path);
    LastNewSideStays(path, NEW_SIDE + path);
  }

  lemma PathExample()
    ensures var path := SRC + "a b/c.ts";
            var edits := [NewFileEdit(Plain(path), ["x"])];
            && AsGitPrints(Plain(path))
            && TrackAll(START, RenderDiff(edits)).changed == []
            && Expected(edits) == [ChangedLine(path, 1, "x")]
  {
    var name, rest := "c.ts", "a b/c.ts";
    SpacedParts(name, rest);
    SpacedPath(SRC, "a", name, rest);
    PathIsCutShort(SRC + "a", name, "x");
  }

  lemma SpacedParts(name: string, rest: string)
    requires name == "c.ts" && rest == "a b/c.ts"
    ensures rest == "a" + (NEW_SIDE + name) && IsRelevant(SRC + rest) && !IsRelevant(name)
    ensures IsPlainText(SRC + "a") && IsPlainText(name) && IsPlainText(SRC + rest) && AfterLastNewSide(name) == None
  {
    SrcIsPlain();
    InSrc(rest);
    NoSpaceNoNewSide(name);
  }

  lemma SpacedPath(src: string, directory: string, name: string, rest: string)
    requires rest == directory + (NEW_SIDE + name)
    ensures src + rest == src + directory + (NEW_SIDE + name)
  {
    AppendIsAssociative(src, directory, NEW_SIDE + name);
  }

  /**
   * A misread file can make up for a lost one: the result is right by accident, although the edits are not read
   * right. The first file is renamed from a quoted name, so its line is lost; the second, not checked, is taken
   * for the first and has the same line.
   */
  lemma MisreadFileMakesUp(a: string, former: Name, directory: string, x: string)
    requires IsPlainText(a) && IsRelevant(a) && AfterLastNewSide(a) == None && !Skipped(x)
    requires IsPlainText(directory) && !IsRelevant(directory + (NEW_SIDE + a))
    requires former.Quoted? && HeaderPath(Sides(NewFileEdit(Plain(a), [x]).(oldName := former))) == None
    ensures var renamed := NewFileEdit(Plain(a), [x]).(oldName := former);
            var other := NewFileEdit(Plain(directory + (NEW_SIDE + a)), [x]);
            && renamed.name.path != other.name.path
            && TrackAll(START, RenderDiff([renamed, other])).changed == Expected([renamed, other])
            && !AllRight("", [renamed, other])
  {
    var renamed := NewFileEdit(Plain(a), [x]).(oldName := former);
    var other := NewFileEdit(Plain(directory + (NEW_SIDE + a)), [x]);
    QuotedIsNot("", renamed);
    MisreadIsCurrent(a, directory, x);
    OneLineEdit(a, Plain(a), x);
    CollectedAsSeen(a, other.name, [x]);
    OneLine(a, x);
    assert AddedTo(renamed) == AddedTo(NewFileEdit(Plain(a), [x]));
    NothingThenThat(renamed, other, a);
    LostIsNotRight(renamed, other);
  }

  lemma MisreadIsCurrent(a: string, directory: string, x: string)
    requires IsPlainText(a) && IsRelevant(a) && AfterLastNewSide(a) == None && IsPlainText(directory)
    ensures CurrentAfter("", NewFileEdit(Plain(directory + (NEW_SIDE + a)), [x])) == a
  {
    LastSideCounts(directory + (NEW_SIDE + a), directory, a);
  }

  lemma NothingThenThat(first: FileEdit, second: FileEdit, a: string)
    requires CurrentAfter("", first) == "" && CurrentAfter("", second) == a
    requires QuietPreambles([first, second]) && Piece(a, second) == AddedTo(first) && AddedTo(second) == []
    ensures TrackAll(START, RenderDiff([first, second])).changed == Expected([first, second])
  {
    DiffIsCollected([first, second]);
    TwoEdits(first, second);
    AppendNothing(AddedTo(first));
    assert [] + Piece(a, second) == Piece(a, second);
  }

  lemma LostIsNotRight(first: FileEdit, second: FileEdit)
    requires CurrentAfter("", first) == "" && AddedTo(first) != []
    ensures !AllRight("", [first, second])
  {
    PieceIsRightIff("", first);
  }

  // ----- a line that starts with `++` -----

  /** Such a line is left out, and the next one gets its number. */
  lemma PlusLineIsLeftOut(path: string, skipped: string, text: string)
    requires IsRelevant(path) && IsPlainText(path) && AfterLastNewSide(path) == None
    requires Skipped(skipped) && !Skipped(text)
    ensures var edits := [NewFileEdit(Plain(path), [skipped, text])];
            && TrackAll(START, RenderDiff(edits)).changed == [ChangedLine(path, 1, text)]
            && Expected(edits) == [ChangedLine(path, 1, skipped), ChangedLine(path, 2, text)]
  {
    var edit := NewFileEdit(Plain(path), [skipped, text]);
    OrdinaryIsCurrent("", edit);
    AloneUnder(edit, path);
    CollectedAsSeen(path, Plain(path), [skipped, text]);
    AddedAsIs(Plain(path), [skipped, text]);
    assert [skipped, text][1..] == [text];
    OneLine(path, text);
    assert seq(2, _ => true) == [true, true] && [true, true][1..] == [true] && [true][1..] == [];
    assert Select(path, 1, [text], [true]) == [ChangedLine(path, 2, text)];
  }

  lemma AloneUnder(edit: FileEdit, path: string)
    requires CurrentAfter("", edit) == path && QuietPreambles([edit])
    ensures TrackAll(START, RenderDiff([edit])).changed == Piece(path, edit)
    ensures Expected([edit]) == AddedTo(edit)
  {
    DiffIsCollected([edit]);
    OneEdit("", edit);
  }

  lemma PlusLineExample()
    ensures var path := SRC + "a.ts";
            var edits := [NewFileEdit(Plain(path), ["++i", "x"])];
            && TrackAll(START, RenderDiff(edits)).changed == [ChangedLine(path, 1, "x")]
            && Expected(edits) == [ChangedLine(path, 1, "++i"), ChangedLine(path, 2, "x")]
  {
    var name := "a.ts";
    InSrc(name);
    PlainInSrc(name);
    assert Skipped("++i") && !Skipped("x");
    PlusLineIsLeftOut(SRC + name, "++i", "x");
  }
}
