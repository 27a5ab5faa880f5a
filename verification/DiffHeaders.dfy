/** What the loop's two expressions make of the headers git prints. */
module DiffHeaders {
  import opened Outcomes
  import opened Sequences
  import opened DiffTracker
  import opened GitDiff

    lemma {:induction false} LastNewSideStays(before: string, s: string)
    requires AfterLastNewSide(s).Some?
    ensures AfterLastNewSide(before + s) == AfterLastNewSide(s)
  {
    if before == [] {
      assert before + s == s;
    } else {
      TailOfAppend(before, s);
      LastNewSideStays(before[1..], s);
    }
  }

  lemma {:induction false} AfterIsShorter(s: string)
    requires AfterLastNewSide(s).Some?
    ensures |AfterLastNewSide(s).value| < |s|
  {
    if AfterLastNewSide(s[1..]).Some? {
      AfterIsShorter(s[1..]);
    }
  }

  lemma NewSideHere(path: string)
    ensures AfterLastNewSide(NEW_SIDE + path)
            == if AfterLastNewSide(path).Some? then AfterLastNewSide(path) else Some(path)
  {
    var s, noSpace, slash := NEW_SIDE + path, "b/" + path, "/" + path;
    assert s[1..] == noSpace && noSpace[1..] == slash && slash[1..] == path && s[3..] == path;
    assert slash[0] == '/' && noSpace[0] == 'b';
    assert AfterLastNewSide(slash) == AfterLastNewSide(path);
    assert AfterLastNewSide(noSpace) == AfterLastNewSide(path);
  }

  lemma {:induction false} NoTerminator(s: string)
    requires forall c :: c in s ==> ' ' <= c <= '~'
    ensures UpToTerminator(s) == s
  {
    if s != [] {
      assert s[0] in s;
      assert forall c :: c in s[1..] ==> c in s;
      NoTerminator(s[1..]);
      assert s == [s[0]] + s[1..];
    }
  }

  lemma PlainSides(edit: FileEdit)
    requires edit.oldName.Plain? && edit.name.Plain?
    ensures GitHeader(edit) == OLD_SIDE + (edit.oldName.path + (NEW_SIDE + edit.name.path))
  {
    var newSide := " " + ("b/" + edit.name.path);
    assert newSide == NEW_SIDE + edit.name.path;
    AppendIsAssociative("a/", edit.oldName.path, newSide);
    var rest := edit.oldName.path + newSide;
    AppendIsAssociative(" ", "a/", rest);
    AppendIsAssociative(GIT_HEADER, " " + "a/", rest);
    assert GIT_HEADER + (" " + "a/") == OLD_SIDE;
  }

  lemma PlainSidesAreRead(oldPath: string, path: string)
    ensures AfterLastNewSide(oldPath + (NEW_SIDE + path)).Some?
    ensures AfterLastNewSide(oldPath + (NEW_SIDE + path)) == Some(path) <==> AfterLastNewSide(path) == None
  {
    NewSideHere(path);
    LastNewSideStays(oldPath, NEW_SIDE + path);
    if AfterLastNewSide(path).Some? {
      AfterIsShorter(path);
    }
  }

  /** An unquoted header always gives a path, and the new one exactly when that does not itself contain ` b/`. */
  lemma HeaderIsReadIff(edit: FileEdit)
    requires edit.oldName.Plain? && edit.name.Plain? && AsGitPrints(edit.oldName) && AsGitPrints(edit.name)
    ensures HeaderPath(GitHeader(edit)).Some?
    ensures HeaderPath(GitHeader(edit)) == Some(edit.name.path) <==> AfterLastNewSide(edit.name.path) == None
  {
    var sides := edit.oldName.path + (NEW_SIDE + edit.name.path);
    PlainSides(edit);
    NoTerminator(sides);
    PlainSidesAreRead(edit.oldName.path, edit.name.path);
    SidesAreRead(sides);
  }

  lemma SidesAreRead(sides: string)
    requires UpToTerminator(sides) == sides && AfterLastNewSide(sides).Some?
    ensures HeaderPath(OLD_SIDE + sides) == AfterLastNewSide(sides)
  {
    Prefix(OLD_SIDE, sides);
  }

  lemma {:induction false} SkipToD(before: string, s: string)
    requires 'd' !in before
    ensures HeaderPath(before + s) == HeaderPath(s)
  {
    if before == [] {
      assert before + s == s;
    } else {
      TailOfAppend(before, s);
      assert before[0] in before;
      assert !StartsWith(before + s, OLD_SIDE);
      SkipToD(before[1..], s);
    }
  }

  /** A quoted old side hides the header: a path is found only if the names themselves hold an unquoted header. */
  lemma QuotedHeaderIsReadLater(edit: FileEdit)
    requires edit.oldName.Quoted?
    ensures HeaderPath(GitHeader(edit)) == HeaderPath(Sides(edit))
  {
    var header, sides := GitHeader(edit), Sides(edit);
    assert sides[0] == '"';
    assert header == GIT_HEADER + " " + sides by {
      AppendIsAssociative(GIT_HEADER, " ", sides);
    }
    assert header[11] == '"' && OLD_SIDE[11] == 'a';
    assert !StartsWith(header, OLD_SIDE);
    assert header[1..] == "iff --git " + sides;
    SkipToD("iff --git ", sides);
  }

  lemma {:induction false} NoSpaceNoNewSide(s: string)
    requires ' ' !in s
    ensures AfterLastNewSide(s) == None
  {
    if s != [] {
      assert s[0] in s;
      NoSpaceNoNewSide(s[1..]);
    }
  }

  lemma NoDNoHeader(s: string)
    requires 'd' !in s
    ensures HeaderPath(s) == None
  {
    assert s + [] == s;
    SkipToD(s, []);
  }

  lemma CountIsSkipped(count: nat, rest: string)
    requires rest != [] && rest[0] == ' '
    ensures SkipCount("," + (Decimal(count) + rest)) == rest
  {
    var counted := Decimal(count) + rest;
    Prefix(",", counted);
    DecimalIsDigits(count);
    DigitsOf(Decimal(count), rest);
    Prefix(Decimal(count), rest);
  }

  /** Reading digits and skipping the count recovers the start of a range and what follows it. */
  lemma RangeIsRead(before: nat, count: nat, rest: string)
    requires rest != [] && rest[0] == ' '
    ensures var s := Range(before, count) + rest;
            && Digits(s) == Decimal(if count == 0 then before else before + 1)
            && SkipCount(s[|Digits(s)|..]) == rest
  {
    var start := Decimal(if count == 0 then before else before + 1);
    var tail := if count == 1 then rest else "," + (Decimal(count) + rest);
    if count != 1 {
      AppendIsAssociative(start, "," + Decimal(count), rest);
      AppendIsAssociative(",", Decimal(count), rest);
      CountIsSkipped(count, rest);
    }
    assert Range(before, count) + rest == start + tail;
    DecimalIsDigits(if count == 0 then before else before + 1);
    DigitsOf(start, tail);
    Prefix(start, tail);
  }

  /** A printed hunk header reads back as the line it states. */
  lemma HunkIsRead(h: Hunk)
    ensures HunkStart(HunkHeader(h)) == Some(HunkLine(h))
  {
    var newRange := Range(h.newBefore, |h.segment.added|) + (" @@" + h.segment.heading);
    var oldRange := Range(h.oldBefore, |h.segment.removed|) + (" +" + newRange);
    NewRangeIsRead(h.newBefore, |h.segment.added|, h.segment.heading);
    OldRangeIsRead(h.oldBefore, |h.segment.removed|, newRange);
    RangesAreRead(oldRange, newRange, HunkLine(h));
  }

  lemma RangesAreRead(oldRange: string, newRange: string, line: nat)
    requires PastOldRange(oldRange) == Some(newRange) && NewStart(newRange) == Some(line)
    ensures HunkStart("@@ -" + oldRange) == Some(line)
  {
    Prefix("@@ -", oldRange);
  }

  /** A hunk header that reads as `line`. */
  predicate IsHunkHeader(header: string, line: nat) {
    |header| > 1 && header[0] == '@' && header[1] == '@' && HunkStart(header) == Some(line)
  }

  lemma ReadHunk(h: Hunk) returns (header: string)
    ensures header == HunkHeader(h) && IsHunkHeader(header, HunkLine(h))
  {
    header := HunkHeader(h);
    HunkIsRead(h);
  }

  lemma Prefix(mark: string, rest: string)
    ensures StartsWith(mark + rest, mark) && (mark + rest)[|mark|..] == rest
  {
  }

  lemma NewRangeIsRead(before: nat, count: nat, heading: string)
    ensures NewStart(Range(before, count) + (" @@" + heading)) == Some(if count == 0 then before else before + 1)
  {
    var end := " @@" + heading;
    Prefix(" @@", heading);
    assert end[0] == ' ';
    RangeIsRead(before, count, end);
    ValueOfDecimal(if count == 0 then before else before + 1);
  }

  lemma OldRangeIsRead(before: nat, count: nat, newRange: string)
    ensures PastOldRange(Range(before, count) + (" +" + newRange)) == Some(newRange)
  {
    var middle := " +" + newRange;
    Prefix(" +", newRange);
    assert middle[0] == ' ';
    RangeIsRead(before, count, middle);
  }
}
