/** Whole runs of the router: attribution stated over the history of lines, and conservation of lines. */
module RouterRuns {
  import opened Outcomes
  import opened Sequences
  import opened StringOrder
  import opened SessionRouter

  /** The pending map after a run. */
  function PendingAfter(lines: seq<Line>): PendingMap {
    if lines == [] then map[]
    else After(PendingAfter(lines[..|lines| - 1]), lines[|lines| - 1])
  }

  /** What the `j`-th line of a run is routed to. */
  function RoutedAt(lines: seq<Line>, j: nat): seq<Append>
    requires j < |lines|
  {
    Routed(PendingAfter(lines[..j]), lines[j])
  }

  /** Everything routed during a run. */
  function AllRouted(lines: seq<Line>): seq<Append> {
    if lines == [] then []
    else AllRouted(lines[..|lines| - 1]) + RoutedAt(lines, |lines| - 1)
  }

  // ----- attribution -----

  predicate Touches(line: Line, key: string) {
    (IsRequest(line) && RequestKey(line) == key) || (IsResponse(line) && AnswerKey(line) == key)
  }

  /** The `i`-th line is a request with this key, not yet answered nor reissued before `n`. */
  ghost predicate Open(lines: seq<Line>, i: nat, n: nat, key: string) {
    && i < n <= |lines|
    && IsRequest(lines[i]) && RequestKey(lines[i]) == key
    && forall m :: i < m < n ==> !Touches(lines[m], key)
  }

  ghost predicate SomeOpen(lines: seq<Line>, n: nat, key: string) {
    exists i: nat :: Open(lines, i, n, key)
  }

  /** The router's memory is exactly the open requests of its history. */
  lemma {:induction false} PendingIsHistory(lines: seq<Line>, n: nat, key: string)
    requires n <= |lines|
    ensures key in PendingAfter(lines[..n]) <==> SomeOpen(lines, n, key)
    ensures forall i: nat :: Open(lines, i, n, key) ==>
              Lookup(PendingAfter(lines[..n]), key) == Some(EntryFor(lines[i]))
  {
    if n > 0 {
      var line := lines[n - 1];
      PendingIsHistory(lines, n - 1, key);
      assert lines[..n][..n - 1] == lines[..n - 1];
      assert PendingAfter(lines[..n]) == After(PendingAfter(lines[..n - 1]), line);
      if Touches(line, key) {
        OpenAfterTouch(lines, n, key);
      } else {
        OpenUntouched(lines, n, key);
        assert Lookup(PendingAfter(lines[..n]), key) == Lookup(PendingAfter(lines[..n - 1]), key);
      }
    }
  }

  lemma OpenAfterTouch(lines: seq<Line>, n: nat, key: string)
    requires 0 < n <= |lines| && Touches(lines[n - 1], key)
    ensures forall i: nat :: Open(lines, i, n, key) <==> i == n - 1 && IsRequest(lines[n - 1])
    ensures SomeOpen(lines, n, key) <==> IsRequest(lines[n - 1])
  {
    if IsRequest(lines[n - 1]) {
      assert Open(lines, n - 1, n, key);
    }
  }

  lemma OpenUntouched(lines: seq<Line>, n: nat, key: string)
    requires 0 < n <= |lines| && !Touches(lines[n - 1], key)
    ensures forall i: nat :: Open(lines, i, n, key) <==> Open(lines, i, n - 1, key)
    ensures SomeOpen(lines, n, key) <==> SomeOpen(lines, n - 1, key)
  {
    forall i: nat ensures Open(lines, i, n, key) <==> Open(lines, i, n - 1, key) {
      OpenStays(lines, i, n, key);
    }
    if SomeOpen(lines, n - 1, key) {
      var i: nat :| Open(lines, i, n - 1, key);
      assert Open(lines, i, n, key);
    }
  }

  lemma OpenStays(lines: seq<Line>, i: nat, n: nat, key: string)
    requires 0 < n <= |lines| && !Touches(lines[n - 1], key)
    ensures Open(lines, i, n, key) <==> Open(lines, i, n - 1, key)
  {
  }

  /** Recorded directions are one of the two `record_line` writes. */
  ghost predicate WellRecorded(lines: seq<Line>) {
    forall line :: line in lines && line.Parsed? ==> line.direction == "to_server" || line.direction == "to_runtime"
  }

  lemma KeysAreInjective(d: string, i: string, e: string, j: string)
    requires d == "to_server" || d == "to_runtime"
    requires e == "to_server" || e == "to_runtime"
    requires Key(d, i) == Key(e, j)
    ensures d == e && i == j
  {
    assert Key(d, i)[3] == d[3] && Key(e, j)[3] == e[3];
    assert i == Key(d, i)[|d| + 1..] && j == Key(e, j)[|e| + 1..];
  }

  /**
   * A response is routed by the one open request it answers: issued in the opposite direction under the
   * same id, whatever same-id requests its own direction has in flight. The request's session wins;
   * without one the held-back request is emitted immediately before its response, to the same
   * destination; and with no open request the response stays at connection level.
   */
  lemma ResponseFollowsItsRequest(lines: seq<Line>, j: nat)
    requires j < |lines| && WellRecorded(lines) && IsResponse(lines[j])
    ensures forall i: nat :: Open(lines, i, j, AnswerKey(lines[j])) ==>
              && lines[i].direction == Opposite(lines[j].direction) != lines[j].direction
              && lines[i].id == lines[j].id
              && RoutedAt(lines, j) ==
                 match lines[i].session
                 case Some(sessionId) => [Session(sessionId, lines[j])]
                 case None =>
                   (match lines[j].minted
                    case Some(minted) => [Session(minted, lines[i]), Session(minted, lines[j])]
                    case None => [Shared(lines[i]), Shared(lines[j])])
    ensures !SomeOpen(lines, j, AnswerKey(lines[j])) ==> RoutedAt(lines, j) == [Shared(lines[j])]
  {
    var key := AnswerKey(lines[j]);
    PendingIsHistory(lines, j, key);
    assert lines[j] in lines;
    forall i: nat | Open(lines, i, j, key)
      ensures lines[i].direction == Opposite(lines[j].direction) && lines[i].id == lines[j].id
    {
      assert lines[i] in lines;
      KeysAreInjective(lines[i].direction, lines[i].id.value, Opposite(lines[j].direction), lines[j].id.value);
    }
  }

  /**
   * A call goes where it says: to the session it names, whatever came before it. Without a session a request
   * is held back and a notification stays at connection level.
   */
  lemma CallGoesWhereItSays(lines: seq<Line>, j: nat)
    requires j < |lines| && lines[j].Parsed? && lines[j].isCall
    ensures RoutedAt(lines, j) ==
            match lines[j].session
            case Some(sessionId) => [Session(sessionId, lines[j])]
            case None => if lines[j].id.Some? then [] else [Shared(lines[j])]
  {
  }

  /** What is no JSON-RPC message stays at connection level. */
  lemma OtherLinesAreShared(lines: seq<Line>, j: nat)
    requires j < |lines| && (lines[j].Parsed? ==> !lines[j].isCall && lines[j].id.None?)
    ensures RoutedAt(lines, j) == [Shared(lines[j])]
  {
  }

  lemma {:induction false} LeftoversAre(pending: PendingMap, keys: seq<string>, append: Append)
    ensures append in Leftovers(pending, keys) <==>
            exists key :: key in keys && key in pending && pending[key].Unattributed?
                          && append == Shared(pending[key].request)
  {
    if keys != [] {
      LeftoversAre(pending, keys[1..], append);
      assert forall key :: key in keys <==> key == keys[0] || key in keys[1..];
    }
  }

  /** A request that names no session and is neither answered nor reissued before the run ends. */
  ghost predicate StaysHeld(lines: seq<Line>, i: nat) {
    && i < |lines| && IsRequest(lines[i]) && lines[i].session.None?
    && Open(lines, i, |lines|, RequestKey(lines[i]))
  }

  lemma DrainedStayedHeld(lines: seq<Line>, keys: seq<string>, append: Append) returns (i: nat)
    requires append in Leftovers(PendingAfter(lines), keys)
    ensures StaysHeld(lines, i) && append == Shared(lines[i])
  {
    var pending := PendingAfter(lines);
    LeftoversAre(pending, keys, append);
    var key :| key in keys && key in pending && pending[key].Unattributed? && append == Shared(pending[key].request);
    assert lines[..|lines|] == lines;
    PendingIsHistory(lines, |lines|, key);
    i :| Open(lines, i, |lines|, key);
    assert Lookup(pending, key) == Some(EntryFor(lines[i]));
  }

  lemma HeldIsDrained(lines: seq<Line>, keys: seq<string>, i: nat)
    requires forall k :: k in PendingAfter(lines) ==> k in keys
    requires StaysHeld(lines, i)
    ensures Shared(lines[i]) in Leftovers(PendingAfter(lines), keys)
  {
    var pending, key := PendingAfter(lines), RequestKey(lines[i]);
    LeftoversAre(pending, keys, Shared(lines[i]));
    assert lines[..|lines|] == lines;
    PendingIsHistory(lines, |lines|, key);
    assert Lookup(pending, key) == Some(EntryFor(lines[i]));
  }

  /** The drain gives back exactly the requests still held, at connection level. */
  lemma DrainedIffHeld(lines: seq<Line>, keys: seq<string>, append: Append)
    requires Enumerates(keys, PendingAfter(lines))
    ensures append in Leftovers(PendingAfter(lines), SortBy(Itself, keys)) <==>
            exists i: nat :: StaysHeld(lines, i) && append == Shared(lines[i])
  {
    SortCorrect(Itself, keys);
    var sorted := SortBy(Itself, keys);
    if append in Leftovers(PendingAfter(lines), sorted) {
      var i := DrainedStayedHeld(lines, sorted, append);
    }
    if i: nat :| StaysHeld(lines, i) && append == Shared(lines[i]) {
      HeldIsDrained(lines, sorted, i);
    }
  }

  // ----- conservation -----

  function LinesOf(appends: seq<Append>): seq<Line> {
    if appends == [] then [] else LinesOf(appends[..|appends| - 1]) + [appends[|appends| - 1].line]
  }

  lemma {:induction false} LinesOfAppend(a: seq<Append>, b: seq<Append>)
    ensures LinesOf(a + b) == LinesOf(a) + LinesOf(b)
  {
    if b == [] {
      assert a + b == a;
    } else {
      var n := |b| - 1;
      assert (a + b)[..|a| + n] == a + b[..n];
      LinesOfAppend(a, b[..n]);
    }
  }

  function HeldBy(entry: Pending): multiset<Line> {
    match entry
    case Attributed(_) => multiset{}
    case Unattributed(request) => multiset{request}
  }

  ghost function SomeKey(keys: set<string>): (key: string)
    requires keys != {}
    ensures key in keys
  {
    var key :| key in keys;
    key
  }

  ghost function HeldOver(pending: PendingMap, keys: set<string>): multiset<Line>
    requires keys <= pending.Keys
    decreases keys
  {
    if keys == {} then multiset{}
    else HeldBy(pending[SomeKey(keys)]) + HeldOver(pending, keys - {SomeKey(keys)})
  }

  /** The request lines held back in a pending map. */
  ghost function Held(pending: PendingMap): multiset<Line> {
    HeldOver(pending, pending.Keys)
  }

  lemma {:induction false} HeldOverWithout(pending: PendingMap, keys: set<string>, key: string)
    requires key in keys && keys <= pending.Keys
    ensures HeldOver(pending, keys) == HeldBy(pending[key]) + HeldOver(pending, keys - {key})
    decreases keys
  {
    var first := SomeKey(keys);
    if first != key {
      HeldOverWithout(pending, keys - {first}, key);
      HeldOverWithout(pending, keys - {key}, first);
      assert keys - {first} - {key} == keys - {key} - {first};
      SumsCommute(HeldBy(pending[first]), HeldBy(pending[key]), HeldOver(pending, keys - {first} - {key}));
    }
  }

  lemma {:induction false} HeldOverSame(pending: PendingMap, other: PendingMap, keys: set<string>)
    requires keys <= pending.Keys && keys <= other.Keys
    requires forall k :: k in keys ==> pending[k] == other[k]
    ensures HeldOver(pending, keys) == HeldOver(other, keys)
    decreases keys
  {
    if keys != {} {
      HeldOverSame(pending, other, keys - {SomeKey(keys)});
    }
  }

  lemma HeldRemoved(pending: PendingMap, key: string)
    ensures key in pending ==> Held(pending) == HeldBy(pending[key]) + Held(pending - {key})
    ensures key !in pending ==> pending - {key} == pending
  {
    if key in pending {
      HeldOverWithout(pending, pending.Keys, key);
      HeldOverSame(pending, pending - {key}, pending.Keys - {key});
      assert (pending - {key}).Keys == pending.Keys - {key};
    }
  }

  lemma HeldUpdated(pending: PendingMap, key: string, entry: Pending)
    ensures Held(pending[key := entry]) == HeldBy(entry) + Held(pending - {key})
  {
    HeldRemoved(pending[key := entry], key);
    assert pending[key := entry] - {key} == pending - {key};
  }

  /** The held-back requests a line's arrival makes the router forget. */
  function Forgotten(pending: PendingMap, line: Line): seq<Line> {
    if IsRequest(line) then
      match Lookup(pending, RequestKey(line))
      case Some(Unattributed(request)) => [request]
      case _ => []
    else []
  }

  function AllForgotten(lines: seq<Line>): seq<Line> {
    if lines == [] then []
    else
      var n := |lines| - 1;
      AllForgotten(lines[..n]) + Forgotten(PendingAfter(lines[..n]), lines[n])
  }

  /** One line: what comes in plus what was held equals what goes out, is held, or is forgotten. */
  lemma StepConserves(pending: PendingMap, line: Line)
    ensures multiset{line} + Held(pending)
            == multiset(LinesOf(Routed(pending, line))) + Held(After(pending, line))
               + multiset(Forgotten(pending, line))
  {
    if IsRequest(line) {
      RequestConserves(pending, line, RequestKey(line));
    } else if IsResponse(line) {
      ResponseConserves(pending, line, AnswerKey(line));
    } else {
      assert LinesOf(Routed(pending, line)) == [line];
    }
  }

  lemma RequestConserves(pending: PendingMap, line: Line, key: string)
    requires IsRequest(line) && key == RequestKey(line)
    ensures multiset{line} + Held(pending)
            == multiset(LinesOf(Routed(pending, line))) + Held(pending[key := EntryFor(line)])
               + multiset(Forgotten(pending, line))
  {
    HeldRemoved(pending, key);
    HeldUpdated(pending, key, EntryFor(line));
    var out, rest := multiset(LinesOf(Routed(pending, line))), Held(pending - {key});
    var forgotten := multiset(Forgotten(pending, line));
    assert LinesOf(Routed(pending, line)) == if line.session.Some? then [line] else [];
    assert multiset{line} == out + HeldBy(EntryFor(line));
    assert Held(pending) == forgotten + rest;
    Balance(multiset{line}, out, HeldBy(EntryFor(line)), forgotten, rest);
  }

  lemma Balance<T>(line: multiset<T>, out: multiset<T>, held: multiset<T>, forgotten: multiset<T>, rest: multiset<T>)
    requires line == out + held
    ensures line + (forgotten + rest) == out + (held + rest) + forgotten
  {
  }

  lemma ResponseConserves(pending: PendingMap, line: Line, key: string)
    requires IsResponse(line) && key == AnswerKey(line)
    ensures multiset{line} + Held(pending)
            == multiset(LinesOf(Routed(pending, line))) + Held(pending - {key}) + multiset(Forgotten(pending, line))
  {
    HeldRemoved(pending, key);
    assert Forgotten(pending, line) == [];
    match Lookup(pending, key)
    case Some(Unattributed(request)) =>
      PairLines(Routed(pending, line), request, line);
      PairBalance(line, request, Held(pending - {key}));
    case _ => assert LinesOf(Routed(pending, line)) == [line];
  }

  lemma {:induction false} PairLines(routed: seq<Append>, first: Line, second: Line)
    requires |routed| == 2 && routed[0].line == first && routed[1].line == second
    ensures LinesOf(routed) == [first, second]
  {
    LinesOfAppend([routed[0]], [routed[1]]);
    SingleLine(routed[0]);
    SingleLine(routed[1]);
    assert routed == [routed[0]] + [routed[1]];
  }

  lemma SingleLine(append: Append)
    ensures LinesOf([append]) == [append.line]
  {
    assert [append][..0] == [];
  }

  lemma PairBalance<T>(line: T, request: T, rest: multiset<T>)
    ensures multiset{line} + (multiset{request} + rest) == multiset([request, line]) + rest + multiset([])
  {
  }

  lemma {:induction false} RunConserves(lines: seq<Line>)
    ensures multiset(lines)
            == multiset(LinesOf(AllRouted(lines))) + Held(PendingAfter(lines)) + multiset(AllForgotten(lines))
  {
    if lines != [] {
      var n := |lines| - 1;
      var before, line := lines[..n], lines[n];
      var pending := PendingAfter(before);
      RunConserves(before);
      StepConserves(pending, line);
      RunTotals(lines);
      Chain(multiset(before), multiset{line}, multiset(lines),
            multiset(LinesOf(AllRouted(before))), Held(pending), multiset(AllForgotten(before)),
            multiset(LinesOf(Routed(pending, line))), Held(PendingAfter(lines)), multiset(Forgotten(pending, line)),
            multiset(LinesOf(AllRouted(lines))), multiset(AllForgotten(lines)));
    }
  }

  lemma RunTotals(lines: seq<Line>)
    requires lines != []
    ensures var n := |lines| - 1;
            var before, line := lines[..n], lines[n];
            var pending := PendingAfter(before);
            && multiset(lines) == multiset(before) + multiset{line}
            && PendingAfter(lines) == After(pending, line)
            && multiset(LinesOf(AllRouted(lines)))
               == multiset(LinesOf(AllRouted(before))) + multiset(LinesOf(Routed(pending, line)))
            && multiset(AllForgotten(lines)) == multiset(AllForgotten(before)) + multiset(Forgotten(pending, line))
  {
    var n := |lines| - 1;
    var before, line := lines[..n], lines[n];
    var pending := PendingAfter(before);
    assert lines == before + [line];
    LinesOfAppend(AllRouted(before), Routed(pending, line));
    MultisetOfAppend(LinesOf(AllRouted(before)), LinesOf(Routed(pending, line)));
    MultisetOfAppend(AllForgotten(before), Forgotten(pending, line));
  }

  lemma Chain<T>(before: multiset<T>, line: multiset<T>, all: multiset<T>,
                 out: multiset<T>, held: multiset<T>, lost: multiset<T>,
                 out1: multiset<T>, held1: multiset<T>, lost1: multiset<T>,
                 outAll: multiset<T>, lostAll: multiset<T>)
    requires before == out + held + lost
    requires line + held == out1 + held1 + lost1
    requires all == before + line && outAll == out + out1 && lostAll == lost + lost1
    ensures all == outAll + held1 + lostAll
  {
    forall x: T ensures all[x] == (outAll + held1 + lostAll)[x] {
      assert (line + held)[x] == (out1 + held1 + lost1)[x];
    }
  }

  /** Draining in any enumeration gives back exactly what was held. */
  lemma {:induction false} LeftoversAreHeld(pending: PendingMap, keys: seq<string>)
    requires Enumerates(keys, pending)
    ensures multiset(LinesOf(Leftovers(pending, keys))) == Held(pending)
  {
    if keys == [] {
      assert pending.Keys == {};
    } else {
      var key, rest := keys[0], keys[1..];
      assert key in keys;
      EnumerationTail(pending, keys);
      LeftoversAreHeld(pending - {key}, rest);
      LeftoversWithout(pending, key, rest);
      HeldRemoved(pending, key);
      LeftoversHead(pending, keys);
    }
  }

  lemma EnumerationTail(pending: PendingMap, keys: seq<string>)
    requires keys != [] && Enumerates(keys, pending)
    ensures keys[0] !in keys[1..] && Enumerates(keys[1..], pending - {keys[0]})
  {
    var key, rest := keys[0], keys[1..];
    forall k | k in rest ensures k in pending - {key} {
      var i :| 0 <= i < |rest| && rest[i] == k;
      assert keys[i + 1] == k && k in keys;
    }
    forall k | k in pending - {key} ensures k in rest {
      var i :| 0 <= i < |keys| && keys[i] == k;
      assert rest[i - 1] == k;
    }
  }

  lemma LeftoversHead(pending: PendingMap, keys: seq<string>)
    requires keys != [] && keys[0] in pending
    ensures multiset(LinesOf(Leftovers(pending, keys)))
            == HeldBy(pending[keys[0]]) + multiset(LinesOf(Leftovers(pending, keys[1..])))
  {
    var rest := Leftovers(pending, keys[1..]);
    match pending[keys[0]]
    case Attributed(_) => assert [] + rest == rest;
    case Unattributed(request) =>
      LinesOfAppend([Shared(request)], rest);
      assert LinesOf([Shared(request)]) == [request];
      MultisetOfAppend([request], LinesOf(rest));
  }

  lemma {:induction false} LeftoversWithout(pending: PendingMap, key: string, keys: seq<string>)
    requires key !in keys
    ensures Leftovers(pending - {key}, keys) == Leftovers(pending, keys)
  {
    if keys != [] {
      LeftoversWithout(pending, key, keys[1..]);
    }
  }

  /** All appends of a run, ending with the drain. */
  function RunAppends(lines: seq<Line>, keys: seq<string>): seq<Append> {
    AllRouted(lines) + Leftovers(PendingAfter(lines), SortBy(Itself, keys))
  }

  lemma SortEnumerates(keys: seq<string>, pending: PendingMap)
    requires Enumerates(keys, pending)
    ensures Enumerates(SortBy(Itself, keys), pending)
  {
    SortCorrect(Itself, keys);
    var sorted := SortBy(Itself, keys);
    forall i, j | 0 <= i < j < |sorted| ensures sorted[i] != sorted[j] {
      CompareEqual(sorted[i], sorted[j]);
    }
  }

  lemma {:induction false} RoutedInRun(lines: seq<Line>, j: nat, append: Append)
    requires j < |lines| && append in RoutedAt(lines, j)
    ensures append in AllRouted(lines)
  {
    var n := |lines| - 1;
    if j < n {
      assert lines[..n][..j] == lines[..j];
      RoutedInRun(lines[..n], j, append);
    }
  }

  lemma {:induction false} LineAt(appends: seq<Append>, i: nat)
    requires i < |appends|
    ensures |LinesOf(appends)| == |appends| && LinesOf(appends)[i] == appends[i].line
  {
    var n := |appends| - 1;
    if i < n {
      LineAt(appends[..n], i);
    } else if n > 0 {
      LineAt(appends[..n], n - 1);
    }
  }

  lemma OccursTwice<T>(xs: seq<T>, i: nat, j: nat)
    requires i < j < |xs| && xs[i] == xs[j]
    ensures multiset(xs)[xs[i]] >= 2
  {
    assert xs == xs[..j] + xs[j..];
    assert xs[i] in xs[..j] && xs[j..][0] == xs[j] && xs[j] in xs[j..];
    MultisetOfAppend(xs[..j], xs[j..]);
  }

  /** A line received once is routed to one destination at most. */
  lemma OneDestination(lines: seq<Line>, keys: seq<string>, a: Append, b: Append)
    requires Enumerates(keys, PendingAfter(lines))
    requires a in RunAppends(lines, keys) && b in RunAppends(lines, keys)
    requires a.line == b.line && multiset(lines)[a.line] == 1
    ensures a == b
  {
    RunBalances(lines, keys);
    if a != b {
      TwoAppends(RunAppends(lines, keys), a, b);
      assert false;
    }
  }

  lemma TwoAppends(appends: seq<Append>, a: Append, b: Append)
    requires a in appends && b in appends && a != b && a.line == b.line
    ensures multiset(LinesOf(appends))[a.line] >= 2
  {
    var i :| 0 <= i < |appends| && appends[i] == a;
    var j :| 0 <= j < |appends| && appends[j] == b;
    LineAt(appends, i);
    LineAt(appends, j);
    if i < j {
      OccursTwice(LinesOf(appends), i, j);
    } else {
      OccursTwice(LinesOf(appends), j, i);
    }
  }

  /** A request reuses an id under which its own direction still has a sessionless request unanswered. */
  ghost predicate ReusesHeldId(lines: seq<Line>, i: nat, j: nat) {
    && j < |lines| && IsRequest(lines[j])
    && Open(lines, i, j, RequestKey(lines[j]))
    && lines[i].session.None?
  }

  lemma {:induction false} ForgottenIffReused(lines: seq<Line>)
    ensures AllForgotten(lines) != [] <==> exists i: nat, j: nat :: ReusesHeldId(lines, i, j)
  {
    if lines != [] {
      var n := |lines| - 1;
      var before := lines[..n];
      ForgottenIffReused(before);
      forall i: nat, j: nat | j < n ensures ReusesHeldId(before, i, j) <==> ReusesHeldId(lines, i, j) {
        OpenPrefix(lines, i, j, n);
      }
      if IsRequest(lines[n]) {
        var key := RequestKey(lines[n]);
        PendingIsHistory(lines, n, key);
        assert before == lines[..n];
        if Forgotten(PendingAfter(before), lines[n]) != [] {
          var i: nat :| Open(lines, i, n, key);
          assert ReusesHeldId(lines, i, n);
        }
      }
      if i: nat, j: nat :| ReusesHeldId(lines, i, j) {
        assert j < n || (j == n && Forgotten(PendingAfter(before), lines[n]) != []);
      }
    }
  }

  lemma OpenPrefix(lines: seq<Line>, i: nat, j: nat, n: nat)
    requires j < n <= |lines|
    ensures ReusesHeldId(lines[..n], i, j) <==> ReusesHeldId(lines, i, j)
  {
    if IsRequest(lines[j]) && i < j {
      var key := RequestKey(lines[j]);
      assert Open(lines[..n], i, j, key) <==> Open(lines, i, j, key);
    }
  }

  /**
   * Conservation, with its exact condition: every recorded line is appended exactly once, none altered,
   * if and only if no request reuses the id of a held-back one. Nothing is ever duplicated.
   */
  lemma LinesAreConservedIff(lines: seq<Line>, keys: seq<string>)
    requires Enumerates(keys, PendingAfter(lines))
    ensures multiset(LinesOf(RunAppends(lines, keys))) <= multiset(lines)
    ensures multiset(LinesOf(RunAppends(lines, keys))) == multiset(lines)
            <==> !exists i: nat, j: nat :: ReusesHeldId(lines, i, j)
  {
    RunBalances(lines, keys);
    ForgottenIffReused(lines);
    var out, lost := multiset(LinesOf(RunAppends(lines, keys))), AllForgotten(lines);
    if lost != [] {
      assert lost[0] in multiset(lost);
      assert multiset(lines)[lost[0]] > out[lost[0]];
    }
  }

  /** What goes into a whole run comes out of it or is forgotten. */
  lemma RunBalances(lines: seq<Line>, keys: seq<string>)
    requires Enumerates(keys, PendingAfter(lines))
    ensures multiset(lines) == multiset(LinesOf(RunAppends(lines, keys))) + multiset(AllForgotten(lines))
  {
    var pending := PendingAfter(lines);
    RunConserves(lines);
    SortEnumerates(keys, pending);
    LeftoversAreHeld(pending, SortBy(Itself, keys));
    LinesOfAppend(AllRouted(lines), Leftovers(pending, SortBy(Itself, keys)));
  }

  /** A run on which a line is lost: the client sends two sessionless requests under id 1. */
  lemma ReusedIdLosesLine(keys: seq<string>)
    requires var first := Parsed("initialize", TO_RUNTIME, true, Some("1"), None, None);
             var second := Parsed("session/new", TO_RUNTIME, true, Some("1"), None, None);
             Enumerates(keys, PendingAfter([first, second]))
    ensures var first := Parsed("initialize", TO_RUNTIME, true, Some("1"), None, None);
            var second := Parsed("session/new", TO_RUNTIME, true, Some("1"), None, None);
            && AllForgotten([first, second]) == [first]
            && first !in LinesOf(RunAppends([first, second], keys))
            && second in LinesOf(RunAppends([first, second], keys))
  {
    var first := Parsed("initialize", TO_RUNTIME, true, Some("1"), None, None);
    var second := Parsed("session/new", TO_RUNTIME, true, Some("1"), None, None);
    FirstIsForgotten(first, second);
    RunBalances([first, second], keys);
    OnlySecondIsLeft(LinesOf(RunAppends([first, second], keys)), first, second);
  }

  lemma FirstIsForgotten(first: Line, second: Line)
    requires IsRequest(first) && IsRequest(second) && RequestKey(first) == RequestKey(second)
    requires first.session.None?
    ensures AllForgotten([first, second]) == [first]
  {
    var lines := [first, second];
    assert lines[..1] == [first] && [first][..0] == [];
    assert PendingAfter([first]) == map[RequestKey(first) := Unattributed(first)];
    assert AllForgotten([first]) == AllForgotten([first][..0]) + [];
  }

  lemma OnlySecondIsLeft(out: seq<Line>, first: Line, second: Line)
    requires first != second && multiset([first, second]) == multiset(out) + multiset([first])
    ensures first !in out && second in out
  {
    var all := multiset(out) + multiset([first]);
    assert all[first] == 1 && all[second] == 1;
    assert multiset(out)[first] == 0 && multiset(out)[second] == 1;
  }
}
