/** The writer: routed lines become stand-alone recordings, one file per session (`run_writer`). */
module SessionRecorder {
  import opened Sequences
  import opened StringOrder
  import opened SessionRouter
  import opened RouterRuns

  /** File contents by session id. A session resumed by a later process already has a file. */
  type Disk = map<string, seq<Line>>

  predicate Concerns(append: Append, sessionId: string) {
    append.Shared? || append.sessionId == sessionId
  }

  /** The appends a session's recording must hold: all shared ones and its own, in order. */
  function Relevant(appends: seq<Append>, sessionId: string): seq<Append> {
    if appends == [] then []
    else
      var last := appends[|appends| - 1];
      Relevant(appends[..|appends| - 1], sessionId) + if Concerns(last, sessionId) then [last] else []
  }

  function SharedOnly(appends: seq<Append>): seq<Append> {
    if appends == [] then []
    else
      var last := appends[|appends| - 1];
      SharedOnly(appends[..|appends| - 1]) + if last.Shared? then [last] else []
  }

  function OwnOnly(appends: seq<Append>, sessionId: string): seq<Append> {
    if appends == [] then []
    else
      var last := appends[|appends| - 1];
      OwnOnly(appends[..|appends| - 1], sessionId)
      + if last.Session? && last.sessionId == sessionId then [last] else []
  }

  /** The sessions some append has named. */
  function Sessions(appends: seq<Append>): set<string> {
    set a | a in appends && a.Session? :: a.sessionId
  }

  function Existing(disk: Disk, sessionId: string): seq<Line> {
    if sessionId in disk then disk[sessionId] else []
  }

  /** What is in a session's file after `applied`: a named session's relevant lines have been added. */
  function FileAfter(initial: Disk, applied: seq<Append>, s: string): seq<Line> {
    if s in Sessions(applied) then Existing(initial, s) + LinesOf(Relevant(applied, s)) else Existing(initial, s)
  }

  function FilesAfter(initial: Disk, applied: seq<Append>): Disk {
    map s | s in initial.Keys + Sessions(applied) :: FileAfter(initial, applied, s)
  }

  function EachWith(disk: Disk, sessions: set<string>, line: Line): Disk {
    map s | s in disk :: if s in sessions then disk[s] + [line] else disk[s]
  }

  // ----- one session's recording on its own -----

  /** Until a session is named, only shared lines concern it. */
  lemma {:induction false} UnnamedIsShared(appends: seq<Append>, sessionId: string)
    requires sessionId !in Sessions(appends)
    ensures Relevant(appends, sessionId) == SharedOnly(appends)
  {
    if appends != [] {
      var n := |appends| - 1;
      assert forall a :: a in appends[..n] ==> a in appends;
      assert appends[n] in appends;
      assert appends[n].Session? ==> appends[n].sessionId in Sessions(appends);
      UnnamedIsShared(appends[..n], sessionId);
    }
  }

  lemma {:induction false} SharedOfRelevant(appends: seq<Append>, sessionId: string)
    ensures SharedOnly(Relevant(appends, sessionId)) == SharedOnly(appends)
  {
    if appends != [] {
      var n := |appends| - 1;
      SharedOfRelevant(appends[..n], sessionId);
      var before := Relevant(appends[..n], sessionId);
      assert (before + [appends[n]])[..|before|] == before;
      assert before + [] == before;
    }
  }

  lemma {:induction false} OwnOfRelevant(appends: seq<Append>, sessionId: string)
    ensures OwnOnly(Relevant(appends, sessionId), sessionId) == OwnOnly(appends, sessionId)
  {
    if appends != [] {
      var n := |appends| - 1;
      OwnOfRelevant(appends[..n], sessionId);
      var before := Relevant(appends[..n], sessionId);
      assert (before + [appends[n]])[..|before|] == before;
      assert before + [] == before;
    }
  }

  // ----- the writer's state -----

  class Recorder {
    var disk: Disk
    var shared: seq<Line>
    var recordings: set<string>
    ghost var initial: Disk
    ghost var applied: seq<Append>

    /** The state reached from disk contents `initial` by the appends `applied`. */
    ghost predicate Valid()
      reads this
    {
      && shared == LinesOf(SharedOnly(applied))
      && recordings == Sessions(applied)
      && disk == FilesAfter(initial, applied)
    }

    constructor (disk: Disk)
      ensures Valid() && initial == disk && applied == []
    {
      this.disk, initial := disk, disk;
      shared, recordings, applied := [], {}, [];
    }

    /** A shared line goes into every open recording, and is kept for those opened later. */
    method AppendShared(line: Line)
      requires Valid()
      modifies this
      ensures Valid() && initial == old(initial)
      ensures applied == old(applied) + [Shared(line)]
    {
      WriteToAll(line);
      shared := shared + [line];
      FilesAfterShared(initial, applied, line);
      AppendedShared(applied, line);
      applied := applied + [Shared(line)];
    }

    method WriteToAll(line: Line)
      requires recordings <= disk.Keys
      modifies this`disk
      ensures disk == EachWith(old(disk), recordings, line)
    {
      var rest := recordings;
      while rest != {}
        invariant rest <= recordings <= disk.Keys
        invariant disk == EachWith(old(disk), recordings - rest, line)
        decreases rest
      {
        var s :| s in rest;
        disk := disk[s := disk[s] + [line]];
        rest := rest - {s};
      }
      assert recordings - {} == recordings;
    }

    /** A session's first line opens its recording with a copy of the shared lines seen so far. */
    method AppendToSession(sessionId: string, line: Line)
      requires Valid()
      modifies this
      ensures Valid() && initial == old(initial)
      ensures applied == old(applied) + [Session(sessionId, line)]
    {
      OpenFileContent(initial, applied, sessionId);
      FilesAfterSession(initial, applied, sessionId, line);
      AppendedToSession(applied, sessionId, line);
      var file := if sessionId in recordings then disk[sessionId]
                  else (if sessionId in disk then disk[sessionId] else []) + shared;
      recordings := recordings + {sessionId};
      disk := disk[sessionId := file + [line]];
      applied := applied + [Session(sessionId, line)];
    }

    method AppendLines(appends: seq<Append>)
      requires Valid()
      modifies this
      ensures Valid() && initial == old(initial)
      ensures applied == old(applied) + appends
    {
      assert applied + appends[..0] == applied;
      for i := 0 to |appends|
        invariant Valid() && initial == old(initial)
        invariant applied == old(applied) + appends[..i]
      {
        match appends[i] {
          case Shared(line) => AppendShared(line);
          case Session(sessionId, line) => AppendToSession(sessionId, line);
        }
        PrefixSnoc(old(applied), appends, i);
      }
      assert appends[..|appends|] == appends;
    }
  }

  lemma PrefixSnoc<T>(before: seq<T>, xs: seq<T>, i: nat)
    requires i < |xs|
    ensures before + xs[..i] + [xs[i]] == before + xs[..i + 1]
  {
  }

  /** One more line that concerns `s`, whose recording is open. */
  lemma FileGrows(initial: Disk, applied: seq<Append>, append: Append, s: string)
    requires s in Sessions(applied) && Concerns(append, s)
    requires s in Sessions(applied + [append])
    ensures FileAfter(initial, applied + [append], s) == FileAfter(initial, applied, s) + [append.line]
  {
    AppendedRelevant(applied, append, s);
    AppendIsAssociative(Existing(initial, s), LinesOf(Relevant(applied, s)), [append.line]);
  }

  /** One more line that leaves `s` alone. */
  lemma FileStays(initial: Disk, applied: seq<Append>, append: Append, s: string)
    requires s in Sessions(applied) ==> !Concerns(append, s)
    requires s in Sessions(applied + [append]) <==> s in Sessions(applied)
    ensures FileAfter(initial, applied + [append], s) == FileAfter(initial, applied, s)
  {
    AppendedRelevant(applied, append, s);
    AppendNothing(LinesOf(Relevant(applied, s)));
  }

  /** The line that opens a recording: the shared lines so far come first. */
  lemma FileOpens(initial: Disk, applied: seq<Append>, s: string, line: Line)
    requires s !in Sessions(applied) && s in Sessions(applied + [Session(s, line)])
    ensures FileAfter(initial, applied + [Session(s, line)], s)
            == FileAfter(initial, applied, s) + LinesOf(SharedOnly(applied)) + [line]
  {
    UnnamedIsShared(applied, s);
    AppendedRelevant(applied, Session(s, line), s);
    AppendIsAssociative(Existing(initial, s), LinesOf(SharedOnly(applied)), [line]);
  }

  /** One more shared line. */
  lemma FilesAfterShared(initial: Disk, applied: seq<Append>, line: Line)
    ensures FilesAfter(initial, applied + [Shared(line)])
            == EachWith(FilesAfter(initial, applied), Sessions(applied), line)
  {
    AppendedShared(applied, line);
    forall s | s in initial.Keys + Sessions(applied)
      ensures FileAfter(initial, applied + [Shared(line)], s)
              == if s in Sessions(applied) then FileAfter(initial, applied, s) + [line]
                 else FileAfter(initial, applied, s)
    {
      if s in Sessions(applied) {
        FileGrows(initial, applied, Shared(line), s);
      } else {
        FileStays(initial, applied, Shared(line), s);
      }
    }
  }

  /** What a session's file holds just before a line of its own is written. */
  function OpenFile(initial: Disk, applied: seq<Append>, s: string): seq<Line> {
    if s in Sessions(applied) then FileAfter(initial, applied, s)
    else FileAfter(initial, applied, s) + LinesOf(SharedOnly(applied))
  }

  /** One more line of a session, whether or not its recording was open. */
  lemma FilesAfterSession(initial: Disk, applied: seq<Append>, sessionId: string, line: Line)
    ensures FilesAfter(initial, applied + [Session(sessionId, line)])
            == FilesAfter(initial, applied)[sessionId := OpenFile(initial, applied, sessionId) + [line]]
  {
    var append := Session(sessionId, line);
    var sessions, next := Sessions(applied), Sessions(applied + [append]);
    AppendedToSession(applied, sessionId, line);
    assert initial.Keys + next == initial.Keys + sessions + {sessionId};
    forall s | s in initial.Keys + next
      ensures FileAfter(initial, applied + [append], s)
              == if s == sessionId then OpenFile(initial, applied, sessionId) + [line]
                 else FileAfter(initial, applied, s)
    {
      if s == sessionId {
        SessionFile(initial, applied, s, line);
      } else {
        FileStays(initial, applied, append, s);
      }
    }
    UpdatedFiles(initial, applied, applied + [append], sessionId, OpenFile(initial, applied, sessionId) + [line]);
  }

  lemma UpdatedFiles(initial: Disk, applied: seq<Append>, longer: seq<Append>, s: string,
      content: seq<Line>)
    requires initial.Keys + Sessions(longer) == initial.Keys + Sessions(applied) + {s}
    requires forall t :: t in initial.Keys + Sessions(longer) ==>
               FileAfter(initial, longer, t) == if t == s then content else FileAfter(initial, applied, t)
    ensures FilesAfter(initial, longer) == FilesAfter(initial, applied)[s := content]
  {
    var next, files := FilesAfter(initial, longer), FilesAfter(initial, applied)[s := content];
    assert next.Keys == files.Keys;
    forall t | t in next.Keys ensures next[t] == files[t] {
    }
  }

  lemma SessionFile(initial: Disk, applied: seq<Append>, s: string, line: Line)
    ensures FileAfter(initial, applied + [Session(s, line)], s) == OpenFile(initial, applied, s) + [line]
  {
    AppendedToSession(applied, s, line);
    if s in Sessions(applied) {
      FileGrows(initial, applied, Session(s, line), s);
    } else {
      FileOpens(initial, applied, s, line);
    }
  }

  lemma OpenFileContent(initial: Disk, applied: seq<Append>, s: string)
    ensures var files := FilesAfter(initial, applied);
            OpenFile(initial, applied, s)
            == if s in Sessions(applied) then files[s] else Existing(files, s) + LinesOf(SharedOnly(applied))
  {
  }

  lemma AppendedShared(applied: seq<Append>, line: Line)
    ensures SharedOnly(applied + [Shared(line)]) == SharedOnly(applied) + [Shared(line)]
    ensures LinesOf(SharedOnly(applied + [Shared(line)])) == LinesOf(SharedOnly(applied)) + [line]
    ensures Sessions(applied + [Shared(line)]) == Sessions(applied)
  {
    var all := applied + [Shared(line)];
    assert all[..|applied|] == applied;
    SnocLine(SharedOnly(applied), Shared(line));
  }

  lemma AppendedToSession(applied: seq<Append>, sessionId: string, line: Line)
    ensures SharedOnly(applied + [Session(sessionId, line)]) == SharedOnly(applied)
    ensures Sessions(applied + [Session(sessionId, line)]) == Sessions(applied) + {sessionId}
  {
    var all := applied + [Session(sessionId, line)];
    assert all[..|applied|] == applied;
    assert all[|applied|] in all;
    assert forall a :: a in all <==> a in applied || a == Session(sessionId, line);
  }

  lemma AppendedRelevant(applied: seq<Append>, append: Append, s: string)
    ensures LinesOf(Relevant(applied + [append], s))
            == LinesOf(Relevant(applied, s)) + if Concerns(append, s) then [append.line] else []
  {
    var all := applied + [append];
    assert all[..|applied|] == applied;
    SnocLine(Relevant(applied, s), append);
    assert Relevant(applied, s) + [] == Relevant(applied, s);
  }

  lemma SnocLine(appends: seq<Append>, append: Append)
    ensures LinesOf(appends + [append]) == LinesOf(appends) + [append.line]
  {
    assert (appends + [append])[..|appends|] == appends;
  }

  /** Routes every received line, then gives back what is still held; returns the final files. */
  method RunWriter(disk: Disk, lines: seq<Line>) returns (recorder: Recorder)
    ensures recorder.Valid() && recorder.initial == disk
    ensures forall keys :: Enumerates(keys, PendingAfter(lines)) ==> recorder.applied == RunAppends(lines, keys)
  {
    recorder := new Recorder(disk);
    var router := new Router();
    for i := 0 to |lines|
      invariant recorder.Valid() && recorder.initial == disk
      invariant router.pending == PendingAfter(lines[..i])
      invariant recorder.applied == AllRouted(lines[..i])
    {
      assert lines[..i + 1][..i] == lines[..i];
      var appends := router.Route(lines[i]);
      recorder.AppendLines(appends);
    }
    assert lines[..|lines|] == lines;
    var leftovers := router.Drain();
    recorder.AppendLines(leftovers);
  }

  /**
   * Every recording stands alone: whenever it was opened, what this process wrote to it is the whole
   * shared stream interleaved, in order, with the session's own lines. Nothing else is in the file, and
   * recordings of sessions never named are untouched.
   */
  lemma RecordingsStandAlone(recorder: Recorder, s: string)
    requires recorder.Valid()
    ensures s in recorder.recordings <==> OwnOnly(recorder.applied, s) != []
    ensures s in recorder.recordings ==>
              exists content ::
                && recorder.disk[s] == (if s in recorder.initial then recorder.initial[s] else []) + LinesOf(content)
                && SharedOnly(content) == SharedOnly(recorder.applied)
                && OwnOnly(content, s) == OwnOnly(recorder.applied, s)
                && forall a :: a in content ==> Concerns(a, s)
    ensures s !in recorder.recordings && s in recorder.initial ==> recorder.disk[s] == recorder.initial[s]
  {
    var content := Relevant(recorder.applied, s);
    SharedOfRelevant(recorder.applied, s);
    OwnOfRelevant(recorder.applied, s);
    RelevantConcerns(recorder.applied, s);
    OwnIffNamed(recorder.applied, s);
    if s in recorder.recordings {
      assert recorder.disk[s] == Existing(recorder.initial, s) + LinesOf(content);
    }
  }

  // ----- which lines a file holds -----

  /** What this process has written to a session's file. */
  ghost function Written(recorder: Recorder, s: string): seq<Line>
    requires recorder.Valid() && s in recorder.recordings
    reads recorder
  {
    recorder.disk[s][if s in recorder.initial then |recorder.initial[s]| else 0..]
  }

  lemma {:induction false} RelevantMembers(appends: seq<Append>, s: string, append: Append)
    ensures append in Relevant(appends, s) <==> append in appends && Concerns(append, s)
  {
    if appends != [] {
      var n := |appends| - 1;
      RelevantMembers(appends[..n], s, append);
      assert append in appends <==> append in appends[..n] || append == appends[n];
    }
  }

  lemma LinesMembers(appends: seq<Append>, line: Line)
    ensures line in LinesOf(appends) <==> exists a :: a in appends && a.line == line
  {
    if line in LinesOf(appends) {
      if appends != [] {
        LineAt(appends, 0);
      }
      var i :| 0 <= i < |LinesOf(appends)| && LinesOf(appends)[i] == line;
      LineAt(appends, i);
    }
    if exists a :: a in appends && a.line == line {
      var i :| 0 <= i < |appends| && appends[i].line == line;
      LineAt(appends, i);
    }
  }

  lemma WrittenIff(recorder: Recorder, s: string, line: Line)
    requires recorder.Valid() && s in recorder.recordings
    ensures line in Written(recorder, s) <==>
            exists a :: a in recorder.applied && Concerns(a, s) && a.line == line
  {
    var relevant := Relevant(recorder.applied, s);
    assert Written(recorder, s) == LinesOf(relevant);
    LinesMembers(relevant, line);
    forall a ensures a in relevant <==> a in recorder.applied && Concerns(a, s) {
      RelevantMembers(recorder.applied, s, a);
    }
  }

  /** The files of a whole run, ended by the drain. */
  ghost predicate Recorded(recorder: Recorder, lines: seq<Line>, keys: seq<string>)
    reads recorder
  {
    recorder.Valid() && Enumerates(keys, PendingAfter(lines)) && recorder.applied == RunAppends(lines, keys)
  }

  /** The line is in the file of `s` and, having been received once, in no other. */
  ghost predicate BelongsTo(recorder: Recorder, lines: seq<Line>, line: Line, s: string)
    requires recorder.Valid()
    reads recorder
  {
    && s in recorder.recordings && line in Written(recorder, s)
    && (multiset(lines)[line] == 1 ==>
          forall t :: t in recorder.recordings && t != s ==> line !in Written(recorder, t))
  }

  lemma WriterOf(recorder: Recorder, s: string, line: Line) returns (append: Append)
    requires recorder.Valid() && s in recorder.recordings && line in Written(recorder, s)
    ensures append in recorder.applied && Concerns(append, s) && append.line == line
  {
    WrittenIff(recorder, s, line);
    append :| append in recorder.applied && Concerns(append, s) && append.line == line;
  }

  lemma AbsentElsewhere(recorder: Recorder, lines: seq<Line>, keys: seq<string>, append: Append, t: string)
    requires Recorded(recorder, lines, keys) && append in recorder.applied && append.Session?
    requires multiset(lines)[append.line] == 1 && t in recorder.recordings && t != append.sessionId
    ensures append.line !in Written(recorder, t)
  {
    if append.line in Written(recorder, t) {
      var other := WriterOf(recorder, t, append.line);
      OneDestination(lines, keys, other, append);
      assert false;
    }
  }

  lemma RoutedIsApplied(recorder: Recorder, lines: seq<Line>, keys: seq<string>, j: nat, append: Append)
    requires Recorded(recorder, lines, keys) && j < |lines| && append in RoutedAt(lines, j)
    ensures append in recorder.applied
  {
    RoutedInRun(lines, j, append);
  }

  lemma NamedIsRecorded(recorder: Recorder, append: Append)
    requires recorder.Valid() && append in recorder.applied && append.Session?
    ensures append.sessionId in recorder.recordings
  {
  }

  /** What is routed to a session belongs to its file. */
  lemma RoutedBelongs(recorder: Recorder, lines: seq<Line>, keys: seq<string>, j: nat, append: Append)
    requires Recorded(recorder, lines, keys) && j < |lines| && append in RoutedAt(lines, j) && append.Session?
    ensures BelongsTo(recorder, lines, append.line, append.sessionId)
  {
    RoutedIsApplied(recorder, lines, keys, j, append);
    NamedIsRecorded(recorder, append);
    WrittenIff(recorder, append.sessionId, append.line);
    if multiset(lines)[append.line] == 1 {
      forall t | t in recorder.recordings && t != append.sessionId ensures append.line !in Written(recorder, t) {
        AbsentElsewhere(recorder, lines, keys, append, t);
      }
    }
  }

  /** A call that names a session is in that session's file, and having been received once, in no other. */
  lemma CallIsInItsFile(recorder: Recorder, lines: seq<Line>, keys: seq<string>, j: nat)
    requires Recorded(recorder, lines, keys)
    requires j < |lines| && lines[j].Parsed? && lines[j].isCall && lines[j].session.Some?
    ensures BelongsTo(recorder, lines, lines[j], lines[j].session.value)
  {
    CallGoesWhereItSays(lines, j);
    RoutedBelongs(recorder, lines, keys, j, Session(lines[j].session.value, lines[j]));
  }

  /** So is the response to it; and when the response to a sessionless request mints a session, so are both. */
  lemma ResponseIsInItsFile(recorder: Recorder, lines: seq<Line>, keys: seq<string>, i: nat, j: nat)
    requires Recorded(recorder, lines, keys) && WellRecorded(lines)
    requires j < |lines| && IsResponse(lines[j]) && Open(lines, i, j, AnswerKey(lines[j]))
    ensures lines[i].session.Some? ==> BelongsTo(recorder, lines, lines[j], lines[i].session.value)
    ensures lines[i].session.None? && lines[j].minted.Some? ==>
              && BelongsTo(recorder, lines, lines[i], lines[j].minted.value)
              && BelongsTo(recorder, lines, lines[j], lines[j].minted.value)
  {
    ResponseFollowsItsRequest(lines, j);
    if lines[i].session.Some? {
      RoutedBelongs(recorder, lines, keys, j, Session(lines[i].session.value, lines[j]));
    } else if lines[j].minted.Some? {
      RoutedBelongs(recorder, lines, keys, j, Session(lines[j].minted.value, lines[i]));
      RoutedBelongs(recorder, lines, keys, j, Session(lines[j].minted.value, lines[j]));
    }
  }

  lemma SharedIsWritten(recorder: Recorder, s: string, line: Line)
    requires recorder.Valid() && s in recorder.recordings && Shared(line) in recorder.applied
    ensures line in Written(recorder, s)
  {
    WrittenIff(recorder, s, line);
    assert Concerns(Shared(line), s);
  }

  /** A notification that names no session is in every recording of the run, as is a request never answered. */
  lemma SharedLineIsInEveryFile(recorder: Recorder, lines: seq<Line>, keys: seq<string>, j: nat, s: string)
    requires Recorded(recorder, lines, keys) && s in recorder.recordings
    requires j < |lines| && lines[j].Parsed? && lines[j].isCall && lines[j].session.None?
    requires lines[j].id.None? || StaysHeld(lines, j)
    ensures lines[j] in Written(recorder, s)
  {
    if lines[j].id.Some? {
      SortCorrect(Itself, keys);
      HeldIsDrained(lines, SortBy(Itself, keys), j);
    } else {
      CallGoesWhereItSays(lines, j);
      RoutedInRun(lines, j, Shared(lines[j]));
    }
    SharedIsWritten(recorder, s, lines[j]);
  }

  lemma {:induction false} RelevantConcerns(appends: seq<Append>, s: string)
    ensures forall a :: a in Relevant(appends, s) ==> Concerns(a, s)
  {
    if appends != [] {
      RelevantConcerns(appends[..|appends| - 1], s);
    }
  }

  lemma {:induction false} OwnIffNamed(appends: seq<Append>, s: string)
    ensures s in Sessions(appends) <==> OwnOnly(appends, s) != []
  {
    if appends != [] {
      var n := |appends| - 1;
      OwnIffNamed(appends[..n], s);
      assert forall a :: a in appends <==> a in appends[..n] || a == appends[n];
      assert s in Sessions(appends) <==>
             s in Sessions(appends[..n]) || (appends[n].Session? && appends[n].sessionId == s);
    }
  }
}
