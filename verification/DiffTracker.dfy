/** Reading the added lines of a `git diff --unified=0` (the loop in `getChangedLines`). */
module DiffTracker {
  import opened Outcomes
  import opened Sequences

  datatype ChangedLine = ChangedLine(file: string, lineNumber: nat, content: string)

  // ----- numbers and headers -----

  predicate IsDigit(c: char) {
    '0' <= c <= '9'
  }

  function Decimal(n: nat): string {
    if n < 10 then [('0' as int + n) as char] else Decimal(n / 10) + [('0' as int + n % 10) as char]
  }

  lemma {:induction false} DecimalIsDigits(n: nat)
    ensures Decimal(n) != [] && forall c :: c in Decimal(n) ==> IsDigit(c)
  {
    if n >= 10 {
      DecimalIsDigits(n / 10);
    }
  }

  function DigitValue(c: char): nat {
    if IsDigit(c) then c as int - '0' as int else 0
  }

  function Value(digits: string): nat {
    if digits == [] then 0
    else
      var last := |digits| - 1;
      10 * Value(digits[..last]) + DigitValue(digits[last])
  }

  lemma {:induction false} ValueOfDecimal(n: nat)
    ensures Value(Decimal(n)) == n
  {
    var r := Decimal(n);
    if n >= 10 {
      ValueOfDecimal(n / 10);
      assert r[..|r| - 1] == Decimal(n / 10);
    } else {
      assert r[..0] == [];
    }
  }

  /** The digits `s` starts with. */
  function Digits(s: string): (r: string)
    ensures r <= s
  {
    if s == [] || !IsDigit(s[0]) then [] else [s[0]] + Digits(s[1..])
  }

  /** All of them, and nothing else. */
  lemma {:induction false} DigitsAreAll(s: string)
    ensures forall c :: c in Digits(s) ==> '0' <= c <= '9'
    ensures |Digits(s)| < |s| ==> !('0' <= s[|Digits(s)|] <= '9')
  {
    if s != [] && IsDigit(s[0]) {
      DigitsAreAll(s[1..]);
    }
  }

  lemma {:induction false} DigitsOf(digits: string, rest: string)
    requires forall c :: c in digits ==> IsDigit(c)
    requires rest == [] || !IsDigit(rest[0])
    ensures Digits(digits + rest) == digits
  {
    if digits == [] {
      assert digits + rest == rest;
    } else {
      TailOfAppend(digits, rest);
      assert forall c :: c in digits[1..] ==> c in digits;
      DigitsOf(digits[1..], rest);
      assert digits == [digits[0]] + digits[1..];
    }
  }

  /** What follows an optional comma and count. */
  function SkipCount(s: string): string {
    if s != [] && s[0] == ',' && Digits(s[1..]) != [] then s[1..][|Digits(s[1..])|..] else s
  }

  predicate StartsWith(s: string, prefix: string) {
    prefix <= s
  }

  /** Past the old range: what follows ` +`. */
  function PastOldRange(s: string): Option<string> {
    var start := Digits(s);
    var rest := SkipCount(s[|start|..]);
    if start != [] && StartsWith(rest, " +") then Some(rest[2..]) else None
  }

  function NewStart(s: string): Option<nat> {
    var start := Digits(s);
    if start != [] && StartsWith(SkipCount(s[|start|..]), " @@") then Some(Value(start)) else None
  }

  /** The new-file start line, if a hunk header starts here. */
  function HunkHere(s: string): Option<nat> {
    if !StartsWith(s, "@@ -") then None
    else
      match PastOldRange(s[4..])
      case None => None
      case Some(rest) => NewStart(rest)
  }

  /** The expression is not anchored, so the first place where it matches counts. */
  function HunkStart(s: string): Option<nat> {
    if HunkHere(s).Some? then HunkHere(s) else if s == [] then None else HunkStart(s[1..])
  }

  const GIT_HEADER := "diff --git"
  const OLD_SIDE := "diff --git a/"
  const NEW_SIDE := " b/"

  /** What follows the last ` b/`: the first group of the expression is greedy. */
  function AfterLastNewSide(s: string): Option<string> {
    if s == [] then None
    else if AfterLastNewSide(s[1..]).Some? then AfterLastNewSide(s[1..])
    else if StartsWith(s, NEW_SIDE) then Some(s[3..])
    else None
  }

  /** Where `.` of the expression stops. */
  predicate IsTerminator(c: char) {
    c == '\n' || c == '\r' || c == '\U{2028}' || c == '\U{2029}'
  }

  function UpToTerminator(s: string): string {
    if s == [] || IsTerminator(s[0]) then [] else [s[0]] + UpToTerminator(s[1..])
  }

  function HeaderHere(s: string): Option<string> {
    if StartsWith(s, OLD_SIDE) then AfterLastNewSide(UpToTerminator(s[|OLD_SIDE|..])) else None
  }

  /** This expression is not anchored either. */
  function HeaderPath(s: string): Option<string> {
    if HeaderHere(s).Some? then HeaderHere(s) else if s == [] then None else HeaderPath(s[1..])
  }

  const FILE_EXTENSIONS := [".tsx", ".ts", ".jsx", ".js"]

  predicate HasExtension(path: string, ext: string) {
    |path| > |ext| && path[|path| - |ext|..] == ext && path[|path| - |ext| - 1] != '/'
  }

  predicate IsRelevant(path: string) {
    StartsWith(path, "apps/web/src/")
    && exists i :: 0 <= i < |FILE_EXTENSIONS| && HasExtension(path, FILE_EXTENSIONS[i])
  }

  /** What follows the last `/`. */
  function BaseName(path: string): string {
    if path == [] || path[|path| - 1] == '/' then [] else BaseName(path[..|path| - 1]) + [path[|path| - 1]]
  }

  /** What follows the last dot of a file name, dot included; a leading dot starts no extension. */
  function Extension(name: string): string {
    if |name| < 2 then []
    else if name[|name| - 1] == '.' then "."
    else
      var before := Extension(name[..|name| - 1]);
      if before == [] then [] else before + [name[|name| - 1]]
  }

  /** The checked files: those under `apps/web/src/` with one of four extensions. */
  lemma RelevantIff(path: string)
    ensures IsRelevant(path) <==>
            StartsWith(path, "apps/web/src/") && Extension(BaseName(path)) in [".tsx", ".ts", ".jsx", ".js"]
  {
    ExtensionIff(path, ".tsx");
    ExtensionIff(path, ".ts");
    ExtensionIff(path, ".jsx");
    ExtensionIff(path, ".js");
    if Extension(BaseName(path)) in [".tsx", ".ts", ".jsx", ".js"] {
      var i :| 0 <= i < 4 && [".tsx", ".ts", ".jsx", ".js"][i] == Extension(BaseName(path));
      assert FILE_EXTENSIONS[i] == Extension(BaseName(path));
    }
  }

  lemma {:induction false} BaseNameEnds(path: string)
    ensures var name := BaseName(path);
            && |name| <= |path| && path[|path| - |name|..] == name
            && '/' !in name && (|name| < |path| ==> path[|path| - |name| - 1] == '/')
  {
    if path != [] && path[|path| - 1] != '/' {
      BaseNameEnds(path[..|path| - 1]);
    }
  }

  /** The extension is the part from the last dot, if that is not the first character. */
  lemma {:induction false} ExtensionEnds(name: string)
    ensures var ext := Extension(name);
            && |ext| <= |name| && name[|name| - |ext|..] == ext
            && (ext != [] ==> |ext| < |name| && ext[0] == '.' && '.' !in ext[1..])
            && (ext == [] && name != [] ==> '.' !in name[1..])
  {
    if |name| >= 2 && name[|name| - 1] != '.' {
      var shorter := name[..|name| - 1];
      ExtensionEnds(shorter);
      var before := Extension(shorter);
      if before != [] {
        assert (before + [name[|name| - 1]])[1..] == before[1..] + [name[|name| - 1]];
      } else {
        assert name[1..] == shorter[1..] + [name[|name| - 1]];
      }
    }
  }

  lemma ExtensionIff(path: string, ext: string)
    requires |ext| >= 2 && ext[0] == '.' && '.' !in ext[1..] && '/' !in ext
    ensures HasExtension(path, ext) <==> Extension(BaseName(path)) == ext
  {
    var name := BaseName(path);
    BaseNameEnds(path);
    ExtensionEnds(name);
    if HasExtension(path, ext) {
      LongEnough(path, ext, name);
      SameEnding(name, ext, Extension(name));
    } else if Extension(name) == ext {
      assert false;
    }
  }

  /** A path with the extension has a longer file name. */
  lemma LongEnough(path: string, ext: string, name: string)
    requires HasExtension(path, ext) && '/' !in ext
    requires |name| <= |path| && path[|path| - |name|..] == name
    requires |name| < |path| ==> path[|path| - |name| - 1] == '/'
    ensures |name| > |ext| && name[|name| - |ext|..] == ext
  {
    if |name| <= |ext| {
      assert false;
    }
    assert path[|path| - |ext|..] == name[|name| - |ext|..];
  }

  lemma SameEnding(name: string, ext: string, found: string)
    requires 2 <= |ext| < |name| && name[|name| - |ext|..] == ext && ext[0] == '.' && '.' !in ext[1..]
    requires |found| <= |name| && name[|name| - |found|..] == found
    requires found != [] ==> |found| < |name| && found[0] == '.' && '.' !in found[1..]
    requires found == [] ==> '.' !in name[1..]
    ensures found == ext
  {
    var k := |name| - |ext|;
    assert name[k] == '.';
    if found == [] {
      assert false;
    } else if |found| < |ext| {
      assert false;
    } else if |found| > |ext| {
      assert false;
    }
  }

  // ----- the loop -----

  /** An empty `file` means no relevant file. */
  datatype Tracker = Tracker(file: string, line: nat, changed: seq<ChangedLine>)

  const START := Tracker("", 0, [])

  function TrackHeader(t: Tracker, line: string): Tracker {
    match HeaderPath(line)
    case Some(path) => t.(file := if IsRelevant(path) then path else "")
    case None => t
  }

  function TrackBody(t: Tracker, line: string): Tracker {
    if StartsWith(line, "@@") then
      (match HunkStart(line) case Some(n) => t.(line := n) case None => t)
    else if StartsWith(line, "+") && !StartsWith(line, "+++") then
      Tracker(t.file, t.line + 1, t.changed + [ChangedLine(t.file, t.line, line[1..])])
    else if StartsWith(line, " ") then t.(line := t.line + 1)
    else t
  }

  function Track(t: Tracker, line: string): Tracker {
    if StartsWith(line, GIT_HEADER) then TrackHeader(t, line)
    else if t.file == "" then t
    else TrackBody(t, line)
  }

  function TrackAll(t: Tracker, lines: seq<string>): Tracker
    decreases |lines|
  {
    if lines == [] then t else TrackAll(Track(t, lines[0]), lines[1..])
  }

  method GetChangedLines(lines: seq<string>) returns (changedLines: seq<ChangedLine>)
    ensures changedLines == TrackAll(START, lines).changed
  {
    changedLines := [];
    var currentFile, currentLineNumber := "", 0;
    for i := 0 to |lines|
      invariant TrackAll(Tracker(currentFile, currentLineNumber, changedLines), lines[i..]) == TrackAll(START, lines)
    {
      var line := lines[i];
      assert lines[i..][0] == line && lines[i..][1..] == lines[i + 1..];
      if StartsWith(line, GIT_HEADER) {
        var path := HeaderPath(line);
        if path.Some? {
          currentFile := if IsRelevant(path.value) then path.value else "";
        }
        continue;
      }
      if currentFile == "" {
        continue;
      }
      if StartsWith(line, "@@") {
        var start := HunkStart(line);
        if start.Some? {
          currentLineNumber := start.value;
        }
        continue;
      }
      if StartsWith(line, "+") && !StartsWith(line, "+++") {
        changedLines := changedLines + [ChangedLine(currentFile, currentLineNumber, line[1..])];
        currentLineNumber := currentLineNumber + 1;
      } else if StartsWith(line, " ") {
        currentLineNumber := currentLineNumber + 1;
      }
    }
  }
}
