/** Multi-file edits, the added lines they stand for, and the diff git prints for them without context. */
module GitDiff {
  import opened DiffTracker

  // ----- what a diff stands for -----

  /** Lines kept, then lines removed, then lines added in their place; `heading` is what git shows after the range. */
  datatype Segment = Segment(kept: seq<string>, removed: seq<string>, added: seq<string>,
                             heading: string, oldUnterminated: bool, newUnterminated: bool)

  /** A path as a header shows it: as it is, or in quotes and escaped when it holds an unusual character. */
  datatype Name = Plain(path: string) | Quoted(path: string, escaped: string)

  /** The two names of the header, the lines git prints between it and the first hunk, and the edit itself. */
  datatype FileEdit = FileEdit(oldName: Name, name: Name, preamble: seq<string>, segments: seq<Segment>)

  function NewFile(segments: seq<Segment>): seq<string> {
    if segments == [] then [] else segments[0].kept + segments[0].added + NewFile(segments[1..])
  }

  /** For each line of the new file, whether the edit added it. */
  function Additions(segments: seq<Segment>): seq<bool> {
    if segments == [] then []
    else seq(|segments[0].kept|, _ => false) + seq(|segments[0].added|, _ => true) + Additions(segments[1..])
  }

  /** The lines flagged as added, each with its number when `before` lines come first. */
  function Select(file: string, before: nat, lines: seq<string>, added: seq<bool>): seq<ChangedLine>
    requires |lines| == |added|
    decreases |lines|
  {
    if lines == [] then []
    else (if added[0] then [ChangedLine(file, before + 1, lines[0])] else [])
         + Select(file, before + 1, lines[1..], added[1..])
  }

  lemma {:induction false} AdditionsCover(segments: seq<Segment>)
    ensures |Additions(segments)| == |NewFile(segments)|
  {
    if segments != [] {
      AdditionsCover(segments[1..]);
    }
  }

  /** The added lines of a file that is checked, in order, each with its number in the new file. */
  function AddedTo(edit: FileEdit): seq<ChangedLine> {
    AdditionsCover(edit.segments);
    if !IsRelevant(edit.name.path) then []
    else Select(edit.name.path, 0, NewFile(edit.segments), Additions(edit.segments))
  }

  function ExpectedPieces(edits: seq<FileEdit>): seq<seq<ChangedLine>> {
    if edits == [] then [] else [AddedTo(edits[0])] + ExpectedPieces(edits[1..])
  }

  function Flatten<T>(pieces: seq<seq<T>>): seq<T> {
    if pieces == [] then [] else pieces[0] + Flatten(pieces[1..])
  }

  function Expected(edits: seq<FileEdit>): seq<ChangedLine> {
    Flatten(ExpectedPieces(edits))
  }

  // ----- the diff as git prints it -----

  function Prefixed(mark: char, lines: seq<string>): seq<string> {
    if lines == [] then [] else [[mark] + lines[0]] + Prefixed(mark, lines[1..])
  }

  /** Git leaves out a count of one, and starts an empty range at the line before it. */
  function Range(before: nat, count: nat): string {
    if count == 1 then Decimal(before + 1)
    else Decimal(if count == 0 then before else before + 1) + ("," + Decimal(count))
  }

  /** A segment and the number of lines of either file that come before its change. */
  datatype Hunk = Hunk(oldBefore: nat, newBefore: nat, segment: Segment)

  function HunksOf(oldBefore: nat, newBefore: nat, segments: seq<Segment>): seq<Hunk>
    decreases |segments|
  {
    if segments == [] then []
    else
      var s := segments[0];
      [Hunk(oldBefore + |s.kept|, newBefore + |s.kept|, s)]
      + HunksOf(oldBefore + |s.kept| + |s.removed|, newBefore + |s.kept| + |s.added|, segments[1..])
  }

  function HunkHeader(h: Hunk): string {
    "@@ -" + (Range(h.oldBefore, |h.segment.removed|)
              + (" +" + (Range(h.newBefore, |h.segment.added|) + (" @@" + h.segment.heading))))
  }

  /** The new-file line a hunk header states. */
  function HunkLine(h: Hunk): nat {
    if h.segment.added == [] then h.newBefore else h.newBefore + 1
  }

  function Unterminated(yes: bool): seq<string> {
    if yes then ["\\ No newline at end of file"] else []
  }

  function HunkBody(s: Segment): seq<string> {
    (Prefixed('-', s.removed) + Unterminated(s.oldUnterminated))
    + (Prefixed('+', s.added) + Unterminated(s.newUnterminated))
  }

  /** A hunk without context; a segment that changes nothing prints nothing. */
  function PrintHunk(h: Hunk): seq<string> {
    if h.segment.removed == [] && h.segment.added == [] then [] else [HunkHeader(h)] + HunkBody(h.segment)
  }

  function PrintHunks(hunks: seq<Hunk>): seq<string> {
    if hunks == [] then [] else PrintHunk(hunks[0]) + PrintHunks(hunks[1..])
  }

  /** Git quotes the characters of a name it cannot print as they are, and then the whole side. */
  predicate IsPlainText(s: string) {
    forall c :: c in s ==> ' ' <= c <= '~' && c != '"' && c != '\\'
  }

  /** How git chooses between the two forms; either is printable. */
  predicate AsGitPrints(name: Name) {
    match name
    case Plain(path) => IsPlainText(path)
    case Quoted(path, escaped) => !IsPlainText(path) && forall c :: c in escaped ==> ' ' <= c <= '~'
  }

  function Side(mark: string, name: Name): string {
    match name
    case Plain(path) => mark + path
    case Quoted(_, escaped) => "\"" + (mark + (escaped + "\""))
  }

  function Sides(edit: FileEdit): string {
    Side("a/", edit.oldName) + (" " + Side("b/", edit.name))
  }

  function GitHeader(edit: FileEdit): string {
    GIT_HEADER + (" " + Sides(edit))
  }

  function RenderFile(edit: FileEdit): seq<string> {
    [GitHeader(edit)] + (edit.preamble + PrintHunks(HunksOf(0, 0, edit.segments)))
  }

  function RenderDiff(edits: seq<FileEdit>): seq<string> {
    if edits == [] then [""] else RenderFile(edits[0]) + RenderDiff(edits[1..])
  }

  // ----- hunks with context -----

  /** A line of a hunk as other context settings print it. */
  datatype BodyLine = Kept(text: string) | Removed(text: string) | Added(text: string)

  function PrintLine(line: BodyLine): string {
    [if line.Kept? then ' ' else if line.Removed? then '-' else '+'] + line.text
  }

  function PrintBody(body: seq<BodyLine>): seq<string> {
    if body == [] then [] else [PrintLine(body[0])] + PrintBody(body[1..])
  }

  /** The lines of the new file, with whether each was added. */
  function NewLines(body: seq<BodyLine>): seq<string> {
    if body == [] then []
    else (if body[0].Removed? then [] else [body[0].text]) + NewLines(body[1..])
  }

  function AddedFlags(body: seq<BodyLine>): (flags: seq<bool>)
    ensures |flags| == |NewLines(body)|
  {
    if body == [] then []
    else (if body[0].Removed? then [] else [body[0].Added?]) + AddedFlags(body[1..])
  }
}
