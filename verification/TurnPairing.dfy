/** What replay promises providers: nothing lost, results after their calls, roles alternating. */
module TurnPairing {
  import opened Sequences
  import opened Json
  import opened MessageParts
  import opened Replay

  // ----- conservation -----

  function PartsText(parts: seq<Part>): string {
    if parts == [] then []
    else
      var last := parts[|parts| - 1];
      PartsText(parts[..|parts| - 1]) + if last.Text? then last.text else []
  }

  function BlocksText(content: seq<AssistantContent>): string {
    if content == [] then []
    else
      var last := content[|content| - 1];
      BlocksText(content[..|content| - 1]) + if last.TextBlock? then last.text else []
  }

  function BlocksCalls(content: seq<AssistantContent>): seq<AssistantContent> {
    if content == [] then []
    else
      var last := content[|content| - 1];
      BlocksCalls(content[..|content| - 1]) + if last.CallBlock? then [last] else []
  }

  function MessagesText(messages: seq<Message>): string {
    if messages == [] then []
    else
      var last := messages[|messages| - 1];
      MessagesText(messages[..|messages| - 1]) + if last.Assistant? then BlocksText(last.content) else []
  }

  function MessagesCalls(messages: seq<Message>): seq<AssistantContent> {
    if messages == [] then []
    else
      var last := messages[|messages| - 1];
      MessagesCalls(messages[..|messages| - 1]) + if last.Assistant? then BlocksCalls(last.content) else []
  }

  function MessagesResults(messages: seq<Message>): seq<ResultBlock> {
    if messages == [] then []
    else
      var last := messages[|messages| - 1];
      MessagesResults(messages[..|messages| - 1]) + if last.User? then last.results else []
  }

  lemma MessageSnoc(messages: seq<Message>, m: Message)
    ensures MessagesText(messages + [m]) == MessagesText(messages) + if m.Assistant? then BlocksText(m.content) else []
    ensures MessagesCalls(messages + [m])
            == MessagesCalls(messages) + if m.Assistant? then BlocksCalls(m.content) else []
    ensures MessagesResults(messages + [m]) == MessagesResults(messages) + if m.User? then m.results else []
  {
    assert (messages + [m])[..|messages|] == messages;
  }

  lemma BlockSnoc(content: seq<AssistantContent>, b: AssistantContent)
    ensures BlocksText(content + [b]) == BlocksText(content) + if b.TextBlock? then b.text else []
    ensures BlocksCalls(content + [b]) == BlocksCalls(content) + if b.CallBlock? then [b] else []
  {
    assert (content + [b])[..|content|] == content;
  }

  function StateText(s: State): string {
    MessagesText(s.out) + BlocksText(s.assistant)
  }

  function StateCalls(s: State): seq<AssistantContent> {
    MessagesCalls(s.out) + BlocksCalls(s.assistant)
  }

  function StateResults(s: State): seq<ResultBlock> {
    MessagesResults(s.out) + s.results
  }

  lemma FlushConserves(s: State)
    ensures StateText(Flushed(s)) == StateText(s)
    ensures StateCalls(Flushed(s)) == StateCalls(s)
    ensures StateResults(Flushed(s)) == StateResults(s)
  {
    var mid := if s.assistant != [] then s.out + [Assistant(s.assistant)] else s.out;
    MessageSnoc(s.out, Assistant(s.assistant));
    MessageSnoc(mid, User(s.results));
    AppendNothing(MessagesResults(s.out));
    AppendNothing(MessagesText(mid));
    AppendNothing(MessagesCalls(mid));
    AppendNothing(MessagesText(s.out));
    AppendNothing(MessagesCalls(s.out));
    AppendNothing(StateResults(s));
    AppendIsAssociative(s.out, if s.assistant != [] then [Assistant(s.assistant)] else [],
                        if s.results != [] then [User(s.results)] else []);
    AppendNothing(s.out);
    AppendNothing(mid);
  }

  lemma AppendTextConserves(content: seq<AssistantContent>, text: string)
    ensures BlocksText(AppendText(content, text)) == BlocksText(content) + text
    ensures BlocksCalls(AppendText(content, text)) == BlocksCalls(content)
  {
    var last := |content| - 1;
    if content != [] && content[last].TextBlock? {
      var before, block := content[..last], content[last];
      assert content == before + [block];
      BlockSnoc(before, block);
      BlockSnoc(before, TextBlock(block.text + text));
      AppendIsAssociative(BlocksText(before), block.text, text);
    } else {
      BlockSnoc(content, TextBlock(text));
    }
    AppendNothing(BlocksCalls(content));
  }

  lemma StepConserves(render: Render, s: State, part: Part)
    ensures var next := Step(render, s, part);
            && StateText(next) == StateText(s) + (if part.Text? then part.text else [])
            && StateCalls(next) == StateCalls(s) + (if IsCall(part) then [ToCall(part)] else [])
            && StateResults(next) == StateResults(s) + (if IsResult(part) then [ToResult(render, part)] else [])
  {
    AppendNothing(StateText(s));
    AppendNothing(StateCalls(s));
    AppendNothing(StateResults(s));
    if part.Text? {
      FlushConserves(s);
      var ready := if s.sawCall then Flushed(s) else s;
      AppendTextConserves(ready.assistant, part.text);
      AppendIsAssociative(MessagesText(ready.out), BlocksText(ready.assistant), part.text);
    } else if IsCall(part) {
      BlockSnoc(s.assistant, ToCall(part));
      AppendNothing(BlocksText(s.assistant));
      AppendIsAssociative(MessagesCalls(s.out), BlocksCalls(s.assistant), [ToCall(part)]);
    } else if IsResult(part) {
      AppendIsAssociative(MessagesResults(s.out), s.results, [ToResult(render, part)]);
    }
  }

  lemma {:induction false} StepsConserve(render: Render, parts: seq<Part>)
    ensures var s := Steps(render, START, parts);
            StateText(s) == PartsText(parts) && StateCalls(s) == TurnCalls(parts)
            && StateResults(s) == TurnResults(render, parts)
  {
    if parts != [] {
      var before, last := parts[..|parts| - 1], parts[|parts| - 1];
      StepsConserve(render, before);
      StepConserves(render, Steps(render, START, before), last);
    }
  }

  /** The tool calls among the parts, in order. */
  function CallParts(parts: seq<Part>): (calls: seq<Part>)
    ensures forall p :: p in calls ==> p.ToolCall? || p.McpToolCall?
  {
    if parts == [] then []
    else
      var last := parts[|parts| - 1];
      CallParts(parts[..|parts| - 1]) + if last.ToolCall? || last.McpToolCall? then [last] else []
  }

  /** The results and errors of tool calls among the parts, in order. */
  function ResultParts(parts: seq<Part>): (results: seq<Part>)
    ensures forall p :: p in results ==> p.ToolCallResponseJson? || p.ToolCallErr?
  {
    if parts == [] then []
    else
      var last := parts[|parts| - 1];
      ResultParts(parts[..|parts| - 1]) + if last.ToolCallResponseJson? || last.ToolCallErr? then [last] else []
  }

  /** The call with its name, its arguments if they are an object, and its trimmed id. */
  predicate IsReplayed(b: AssistantContent, part: Part)
    requires part.ToolCall? || part.McpToolCall?
  {
    && b.CallBlock? && b.name == part.name
    && b.input == (if part.json.JsonObject? then part.json else JsonObject(map[]))
    && b.callId == ReplayCallId(part.id) && b.itemId == "fc_" + ReplayCallId(part.id)
  }

  /** The result under the trimmed id, holding the error's description or the payload as JSON. */
  predicate IsReported(render: Render, r: ResultBlock, part: Part)
    requires part.ToolCallResponseJson? || part.ToolCallErr?
  {
    && r.text == (if part.ToolCallErr? then part.description else render(part.json))
    && r.callId == ReplayCallId(part.id) && r.itemId == "fc_" + ReplayCallId(part.id)
  }

  lemma {:induction false} TurnCallsReplay(parts: seq<Part>)
    ensures |TurnCalls(parts)| == |CallParts(parts)|
    ensures forall k :: 0 <= k < |CallParts(parts)| ==> IsReplayed(TurnCalls(parts)[k], CallParts(parts)[k])
  {
    if parts != [] {
      TurnCallsReplay(parts[..|parts| - 1]);
    }
  }

  lemma {:induction false} TurnResultsReport(render: Render, parts: seq<Part>)
    ensures |TurnResults(render, parts)| == |ResultParts(parts)|
    ensures forall k :: 0 <= k < |ResultParts(parts)| ==>
              IsReported(render, TurnResults(render, parts)[k], ResultParts(parts)[k])
  {
    if parts != [] {
      TurnResultsReport(render, parts[..|parts| - 1]);
    }
  }

  /** For every input, text, calls and results come through complete and in order, and each as the part says it. */
  lemma ReplayConserves(render: Render, parts: seq<Part>)
    ensures MessagesText(Convert(render, parts)) == PartsText(parts)
    ensures var calls := MessagesCalls(Convert(render, parts));
            && |calls| == |CallParts(parts)|
            && forall k :: 0 <= k < |calls| ==> IsReplayed(calls[k], CallParts(parts)[k])
    ensures var results := MessagesResults(Convert(render, parts));
            && |results| == |ResultParts(parts)|
            && forall k :: 0 <= k < |results| ==> IsReported(render, results[k], ResultParts(parts)[k])
  {
    var s := Steps(render, START, parts);
    StepsConserve(render, parts);
    FlushConserves(s);
    AppendNothing(MessagesText(Flushed(s).out));
    AppendNothing(MessagesCalls(Flushed(s).out));
    AppendNothing(MessagesResults(Flushed(s).out));
    TurnCallsReplay(parts);
    TurnResultsReport(render, parts);
  }

  // ----- message shape -----

  /** At most one text block, which comes first, and something in every message. */
  ghost predicate WellFormed(m: Message) {
    match m
    case Assistant(content) => content != [] && forall i :: 0 < i < |content| ==> content[i].CallBlock?
    case User(results) => results != []
  }

  lemma {:induction false} CallsAreCalls(turn: seq<Part>)
    ensures forall b :: b in TurnCalls(turn) ==> b.CallBlock?
  {
    if turn != [] {
      CallsAreCalls(turn[..|turn| - 1]);
    }
  }

  lemma {:induction false} TurnsWellFormed(render: Render, turns: seq<seq<Part>>)
    ensures forall m :: m in EmitTurns(render, turns) ==> WellFormed(m)
  {
    if turns != [] {
      var last := turns[|turns| - 1];
      TurnsWellFormed(render, turns[..|turns| - 1]);
      CallsAreCalls(last);
      var content := TurnContent(last);
      forall i | 0 < i < |content| ensures content[i].CallBlock? {
        assert content[i] in TurnCalls(last);
      }
    }
  }

  lemma ReplayIsWellFormed(render: Render, parts: seq<Part>)
    ensures forall m :: m in Convert(render, parts) ==> WellFormed(m)
  {
    ReplayIsByTurns(render, parts);
    TurnsWellFormed(render, AllTurns(parts));
  }

  // ----- the shape of turns -----

  /** The open turn is the end of the parts; it starts a later turn only with a text. */
  lemma {:induction false} OpenIsSuffix(parts: seq<Part>)
    ensures var turns := TurnsOf(parts);
            && |turns.open| <= |parts|
            && turns.open == parts[|parts| - |turns.open|..]
            && (turns.closed != [] ==> turns.open != [] && turns.open[0].Text?)
  {
    if parts != [] {
      var n := |parts| - 1;
      var before := TurnsOf(parts[..n]);
      OpenIsSuffix(parts[..n]);
      SuffixGrows(parts, |before.open|);
    }
  }

  lemma SuffixGrows(parts: seq<Part>, k: nat)
    requires k < |parts|
    ensures var n := |parts| - 1; parts[..n][n - k..] + [parts[n]] == parts[n - k..]
    ensures parts[|parts| - 1..] == [parts[|parts| - 1]]
  {
  }

  /** Every closed turn holds a call, and every turn but the first starts with a text. */
  lemma {:induction false} TurnShapes(parts: seq<Part>)
    ensures forall t :: t in TurnsOf(parts).closed ==> HasCall(t)
    ensures forall i :: 0 < i < |AllTurns(parts)| ==> AllTurns(parts)[i] != [] && AllTurns(parts)[i][0].Text?
  {
    OpenIsSuffix(parts);
    if parts != [] {
      var n := |parts| - 1;
      var before, turns := TurnsOf(parts[..n]), TurnsOf(parts);
      TurnShapes(parts[..n]);
      forall i | 0 < i < |AllTurns(parts)| ensures AllTurns(parts)[i] != [] && AllTurns(parts)[i][0].Text? {
        if i < |turns.closed| {
          assert AllTurns(parts)[i] == AllTurns(parts[..n])[i];
        }
      }
    }
  }

  lemma {:induction false} TextGivesContent(turn: seq<Part>)
    requires turn != [] && turn[0].Text?
    ensures TurnText(turn).Some? && TurnContent(turn) != []
  {
    if |turn| > 1 {
      assert turn[..|turn| - 1][0] == turn[0];
      TextGivesContent(turn[..|turn| - 1]);
    } else {
      assert turn[..0] == [];
    }
  }

  lemma {:induction false} ResultsIffHasResult(render: Render, turn: seq<Part>)
    ensures HasResult(turn) <==> TurnResults(render, turn) != []
    ensures forall r :: r in TurnResults(render, turn) <==>
              exists p :: p in turn && IsResult(p) && ToResult(render, p) == r
  {
    if turn != [] {
      var n := |turn| - 1;
      ResultsIffHasResult(render, turn[..n]);
      assert forall p :: p in turn <==> p in turn[..n] || p == turn[n];
    }
  }

  lemma {:induction false} CallMembers(turn: seq<Part>, b: AssistantContent)
    ensures b in TurnCalls(turn) <==> exists p :: p in turn && IsCall(p) && ToCall(p) == b
  {
    if turn != [] {
      var n := |turn| - 1;
      CallMembers(turn[..n], b);
      assert forall p :: p in turn <==> p in turn[..n] || p == turn[n];
    }
  }

  // ----- pairing -----

  predicate Answers(b: AssistantContent, r: ResultBlock) {
    b.CallBlock? && b.itemId == r.itemId && b.callId == r.callId
  }

  /** The `k`-th message is not a lone user message: the assistant message before it made all its calls. */
  ghost predicate PairedAt(messages: seq<Message>, k: nat)
    requires k < |messages|
  {
    messages[k].User? ==>
      && k > 0 && messages[k - 1].Assistant?
      && forall r :: r in messages[k].results ==> exists b :: b in messages[k - 1].content && Answers(b, r)
  }

  ghost predicate Paired(messages: seq<Message>) {
    forall k: nat :: k < |messages| ==> PairedAt(messages, k)
  }

  ghost predicate CallFor(turn: seq<Part>, r: Part)
    requires IsResult(r)
  {
    exists p :: p in turn && IsCall(p) && ReplayCallId(p.id) == ReplayCallId(r.id)
  }

  /** Every result in the turn has a call in the same turn, under the same replayed id. */
  ghost predicate AnswersItself(turn: seq<Part>) {
    forall r :: r in turn && IsResult(r) ==> CallFor(turn, r)
  }

  lemma AnswerInTurn(render: Render, turn: seq<Part>, r: Part)
    requires IsResult(r)
    ensures CallFor(turn, r) <==> exists b :: b in TurnContent(turn) && Answers(b, ToResult(render, r))
  {
    if CallFor(turn, r) {
      var p :| p in turn && IsCall(p) && ReplayCallId(p.id) == ReplayCallId(r.id);
      CallMembers(turn, ToCall(p));
      assert ToCall(p) in TurnContent(turn) && Answers(ToCall(p), ToResult(render, r));
    }
    if exists b :: b in TurnContent(turn) && Answers(b, ToResult(render, r)) {
      var b :| b in TurnContent(turn) && Answers(b, ToResult(render, r));
      CallMembers(turn, b);
    }
  }

  lemma ResultsPaired(content: seq<AssistantContent>, results: seq<ResultBlock>)
    ensures Paired(TurnMessages(content, results)) <==>
            forall r :: r in results ==> exists b :: b in content && Answers(b, r)
  {
    var messages := TurnMessages(content, results);
    if results != [] {
      var k := |messages| - 1;
      assert messages[k] == User(results) && results[0] in results;
      assert k > 0 ==> messages[k - 1] == Assistant(content);
      if Paired(messages) {
        assert PairedAt(messages, k);
      }
    }
  }

  lemma TurnPaired(render: Render, turn: seq<Part>)
    ensures Paired(EmitTurn(render, turn)) <==> AnswersItself(turn)
  {
    var content, results := TurnContent(turn), TurnResults(render, turn);
    ResultsPaired(content, results);
    ResultsIffHasResult(render, turn);
    if AnswersItself(turn) {
      forall r | r in results ensures exists b :: b in content && Answers(b, r) {
        var p :| p in turn && IsResult(p) && ToResult(render, p) == r;
        AnswerInTurn(render, turn, p);
      }
    }
    if forall r :: r in results ==> exists b :: b in content && Answers(b, r) {
      forall p | p in turn && IsResult(p) ensures CallFor(turn, p) {
        assert ToResult(render, p) in results;
        AnswerInTurn(render, turn, p);
      }
    }
  }

  /** Whether a message is paired depends on it and its predecessor only; one without need not have any. */
  lemma PairedAtSame(messages: seq<Message>, k: nat, others: seq<Message>, j: nat)
    requires k < |messages| && j < |others| && messages[k] == others[j]
    requires (k > 0 && j > 0 && messages[k - 1] == others[j - 1]) || (k == 0 && j == 0) || messages[k].Assistant?
    ensures PairedAt(messages, k) <==> PairedAt(others, j)
  {
  }

  lemma PairedConcat(a: seq<Message>, b: seq<Message>)
    requires a == [] || b == [] || b[0].Assistant?
    ensures Paired(a + b) <==> Paired(a) && Paired(b)
  {
    var all := a + b;
    forall k: nat | k < |a| ensures PairedAt(a, k) <==> PairedAt(all, k) {
      PairedAtSame(a, k, all, k);
    }
    forall k: nat | k < |b| ensures PairedAt(b, k) <==> PairedAt(all, |a| + k) {
      PairedAtSame(b, k, all, |a| + k);
    }
    if Paired(a) && Paired(b) {
      forall k: nat | k < |all| ensures PairedAt(all, k) {
        if k >= |a| {
          assert PairedAt(b, k - |a|);
        }
      }
    }
  }

  ghost predicate LaterTurnsStartWithText(turns: seq<seq<Part>>) {
    forall i :: 0 < i < |turns| ==> turns[i] != [] && turns[i][0].Text?
  }

  lemma {:induction false} TurnsPaired(render: Render, turns: seq<seq<Part>>)
    requires LaterTurnsStartWithText(turns)
    ensures Paired(EmitTurns(render, turns)) <==> forall t :: t in turns ==> AnswersItself(t)
  {
    if turns != [] {
      var n := |turns| - 1;
      var before, last := turns[..n], turns[n];
      TurnsPaired(render, before);
      TurnPaired(render, last);
      if n > 0 {
        TextGivesContent(last);
      } else {
        assert EmitTurns(render, before) == [];
      }
      PairedConcat(EmitTurns(render, before), EmitTurn(render, last));
      assert forall t :: t in turns <==> t in before || t == last;
    }
  }

  /**
   * Every result message directly follows the assistant message that made its calls, under equal ids, if
   * and only if each result shares a turn with a call of the same replayed id.
   */
  lemma ResultsFollowCallsIff(render: Render, parts: seq<Part>)
    ensures Paired(Convert(render, parts)) <==> forall t :: t in AllTurns(parts) ==> AnswersItself(t)
  {
    ReplayIsByTurns(render, parts);
    TurnShapes(parts);
    TurnsPaired(render, AllTurns(parts));
  }

  /** No text lies between the `i`-th and the `j`-th part. */
  ghost predicate NoTextBetween(parts: seq<Part>, i: nat, j: nat) {
    forall k :: i < k < j && k < |parts| ==> !parts[k].Text?
  }

  /** The `j`-th part is a result whose call came earlier with no text in between. */
  ghost predicate FollowsItsCall(parts: seq<Part>, j: nat)
    requires j < |parts|
  {
    IsResult(parts[j]) ==>
      exists i: nat :: i < j && IsCall(parts[i]) && parts[i].id == parts[j].id && NoTextBetween(parts, i, j)
  }

  lemma {:induction false} StaysOpen(parts: seq<Part>, i: nat)
    requires i < |parts| && NoTextBetween(parts, i, |parts|)
    ensures parts[i] in TurnsOf(parts).open
  {
    var n := |parts| - 1;
    var before := TurnsOf(parts[..n]);
    if i < n {
      assert parts[..n][i] == parts[i];
      assert !parts[n].Text?;
      forall k | i < k < n ensures !parts[..n][k].Text? {
        assert parts[..n][k] == parts[k];
      }
      StaysOpen(parts[..n], i);
      assert TurnsOf(parts).open == before.open + [parts[n]];
    } else {
      assert parts[n] in TurnsOf(parts).open;
    }
  }

  /** The condition callers can see in the parts suffices: results close behind their calls are paired. */
  lemma {:induction false} CloseResultsAnswer(parts: seq<Part>)
    requires forall j: nat :: j < |parts| ==> FollowsItsCall(parts, j)
    ensures forall t :: t in AllTurns(parts) ==> AnswersItself(t)
  {
    if parts != [] {
      var n := |parts| - 1;
      var before, last := parts[..n], parts[n];
      forall j: nat | j < n ensures FollowsItsCall(before, j) {
        PrefixFollows(parts, n, j);
      }
      CloseResultsAnswer(before);
      var open, next := TurnsOf(before).open, TurnsOf(parts).open;
      assert open in AllTurns(before);
      assert forall p :: p in next ==> p in open || p == last;
      if IsResult(last) {
        assert FollowsItsCall(parts, n);
        var i: nat :| i < n && IsCall(parts[i]) && parts[i].id == last.id && NoTextBetween(parts, i, n);
        assert before[i] == parts[i];
        forall k | i < k < n ensures !before[k].Text? {
          assert before[k] == parts[k];
        }
        StaysOpen(before, i);
        assert parts[i] in next;
        assert CallFor(next, last);
      }
      OpenAnswers(open, next, last);
      assert forall t :: t in AllTurns(parts) ==> t in AllTurns(before) || t == next;
    } else {
      assert AllTurns(parts) == [[]];
    }
  }

  lemma OpenAnswers(open: seq<Part>, next: seq<Part>, last: Part)
    requires AnswersItself(open)
    requires next == open + [last] || (next == [last] && last.Text?)
    requires IsResult(last) ==> CallFor(next, last)
    ensures AnswersItself(next)
  {
    forall r | r in next && IsResult(r) ensures CallFor(next, r) {
      if r != last {
        assert r in open;
        var p :| p in open && IsCall(p) && ReplayCallId(p.id) == ReplayCallId(r.id);
        assert p in next;
      }
    }
  }

  lemma PrefixFollows(parts: seq<Part>, n: nat, j: nat)
    requires j < n <= |parts| && FollowsItsCall(parts, j)
    ensures FollowsItsCall(parts[..n], j)
  {
    if IsResult(parts[j]) {
      var i: nat :| i < j && IsCall(parts[i]) && parts[i].id == parts[j].id && NoTextBetween(parts, i, j);
      assert parts[..n][i] == parts[i] && NoTextBetween(parts[..n], i, j);
    }
  }

  /** If every result follows its call with no text between them, every result message is paired. */
  lemma CloseResultsArePaired(render: Render, parts: seq<Part>)
    requires forall j: nat :: j < |parts| ==> FollowsItsCall(parts, j)
    ensures Paired(Convert(render, parts))
  {
    CloseResultsAnswer(parts);
    ResultsFollowCallsIff(render, parts);
  }

  // ----- alternation -----

  /** Assistant and user messages alternate, starting with the assistant. */
  ghost predicate Alternates(messages: seq<Message>) {
    forall k :: 0 <= k < |messages| ==> (messages[k].Assistant? <==> k % 2 == 0)
  }

  lemma AlternatesConcat(a: seq<Message>, b: seq<Message>)
    requires b != [] && b[0].Assistant? && Alternates(b)
    ensures Alternates(a + b) <==> Alternates(a) && |a| % 2 == 0
  {
    var all := a + b;
    forall k | 0 <= k < |a| ensures all[k] == a[k] {
    }
    forall k | |a| <= k < |all| ensures all[k] == b[k - |a|] {
    }
    if Alternates(all) {
      assert all[|a|] == b[0];
    }
  }

  lemma EmitWithContent(render: Render, turn: seq<Part>)
    requires TurnContent(turn) != []
    ensures var b := EmitTurn(render, turn);
            && b != [] && b[0].Assistant? && Alternates(b)
            && |b| == if HasResult(turn) then 2 else 1
  {
    ResultsIffHasResult(render, turn);
  }

  /** All turns but the last have a result. */
  ghost predicate AnsweredButLast(turns: seq<seq<Part>>) {
    forall i :: 0 <= i < |turns| - 1 ==> HasResult(turns[i])
  }

  lemma AnsweredSnoc(turns: seq<seq<Part>>)
    requires |turns| > 1
    ensures var n := |turns| - 1;
            AnsweredButLast(turns) <==> AnsweredButLast(turns[..n]) && HasResult(turns[n - 1])
  {
    var n := |turns| - 1;
    if AnsweredButLast(turns[..n]) && HasResult(turns[n - 1]) {
      forall i | 0 <= i < n ensures HasResult(turns[i]) {
        if i < n - 1 {
          assert turns[..n][i] == turns[i];
        }
      }
    }
    if AnsweredButLast(turns) {
      forall i | 0 <= i < n - 1 ensures HasResult(turns[..n][i]) {
        assert turns[..n][i] == turns[i];
      }
    }
  }

  lemma EmitTurnsSnoc(render: Render, turns: seq<seq<Part>>)
    requires turns != []
    ensures EmitTurns(render, turns) == EmitTurns(render, turns[..|turns| - 1]) + EmitTurn(render, turns[|turns| - 1])
  {
  }

  lemma {:induction false} TurnsAlternate(render: Render, turns: seq<seq<Part>>)
    requires forall t :: t in turns ==> TurnContent(t) != []
    ensures Alternates(EmitTurns(render, turns)) <==> AnsweredButLast(turns)
    ensures turns != [] && Alternates(EmitTurns(render, turns)) ==>
              (|EmitTurns(render, turns)| % 2 == 0 <==> HasResult(turns[|turns| - 1]))
  {
    if turns != [] {
      var n := |turns| - 1;
      var before, last := turns[..n], turns[n];
      assert TurnContent(last) != [] by { assert last in turns; }
      EmitTurnsSnoc(render, turns);
      EmitWithContent(render, last);
      if n > 0 {
        TurnsAlternate(render, before);
        assert before[n - 1] == turns[n - 1];
        AnsweredSnoc(turns);
        AfterAnswered(EmitTurns(render, before), EmitTurn(render, last), HasResult(before[n - 1]), HasResult(last));
      } else {
        assert EmitTurns(render, before) == [];
        AfterAnswered([], EmitTurn(render, last), true, HasResult(last));
      }
    }
  }

  lemma AfterAnswered(a: seq<Message>, b: seq<Message>, answeredBefore: bool, answered: bool)
    requires b != [] && b[0].Assistant? && Alternates(b) && |b| == if answered then 2 else 1
    requires Alternates(a) ==> (|a| % 2 == 0 <==> answeredBefore)
    ensures Alternates(a + b) <==> Alternates(a) && answeredBefore
    ensures Alternates(a + b) ==> (|a + b| % 2 == 0 <==> answered)
  {
    AlternatesConcat(a, b);
  }

  /**
   * Roles strictly alternate, assistant first, if and only if every turn that a text closed has a result,
   * and the last turn is not results alone.
   */
  lemma RolesAlternateIff(render: Render, parts: seq<Part>)
    ensures Alternates(Convert(render, parts)) <==>
            && (forall t :: t in TurnsOf(parts).closed ==> HasResult(t))
            && (TurnContent(TurnsOf(parts).open) == [] ==> !HasResult(TurnsOf(parts).open))
  {
    ReplayIsByTurns(render, parts);
    if TurnContent(TurnsOf(parts).open) == [] {
      LoneResultsDoNotAlternate(render, parts);
    } else {
      ContentAlternates(render, parts);
    }
  }

  lemma LoneResultsDoNotAlternate(render: Render, parts: seq<Part>)
    requires TurnContent(TurnsOf(parts).open) == []
    ensures TurnsOf(parts).closed == []
    ensures Alternates(EmitTurns(render, AllTurns(parts))) <==> !HasResult(TurnsOf(parts).open)
  {
    var turns := TurnsOf(parts);
    OpenIsSuffix(parts);
    if turns.closed != [] {
      TextGivesContent(turns.open);
    }
    assert AllTurns(parts) == [turns.open];
    OneTurn(render, turns.open);
    NoContentAlternates(render, turns.open);
  }

  lemma NoContentAlternates(render: Render, turn: seq<Part>)
    requires TurnContent(turn) == []
    ensures Alternates(EmitTurn(render, turn)) <==> !HasResult(turn)
  {
    ResultsIffHasResult(render, turn);
    var results := TurnResults(render, turn);
    if results != [] {
      assert EmitTurn(render, turn) == [User(results)];
      assert EmitTurn(render, turn)[0].User?;
    }
  }

  lemma OneTurn(render: Render, turn: seq<Part>)
    ensures EmitTurns(render, [turn]) == EmitTurn(render, turn)
  {
    assert [turn][..0] == [];
    assert EmitTurns(render, []) == [];
  }

  lemma ContentAlternates(render: Render, parts: seq<Part>)
    requires TurnContent(TurnsOf(parts).open) != []
    ensures Alternates(EmitTurns(render, AllTurns(parts))) <==> forall t :: t in TurnsOf(parts).closed ==> HasResult(t)
  {
    var closed, all := TurnsOf(parts).closed, AllTurns(parts);
    TurnShapes(parts);
    forall t | t in all ensures TurnContent(t) != [] {
      if t in closed {
        NoCallsWithoutCall(t);
      }
    }
    TurnsAlternate(render, all);
    AllButLastAnswered(closed, TurnsOf(parts).open);
  }

  lemma AllButLastAnswered(closed: seq<seq<Part>>, open: seq<Part>)
    ensures AnsweredButLast(closed + [open]) <==> forall t :: t in closed ==> HasResult(t)
  {
    assert forall i :: 0 <= i < |closed| ==> (closed + [open])[i] == closed[i];
    if AnsweredButLast(closed + [open]) {
      forall t | t in closed ensures HasResult(t) {
        var i :| 0 <= i < |closed| && closed[i] == t;
        assert HasResult((closed + [open])[i]);
      }
    }
  }

  /** The `i`-th part, if a call, is answered before the next text. */
  ghost predicate AnsweredInTime(parts: seq<Part>, i: nat)
    requires i < |parts|
  {
    IsCall(parts[i]) ==>
      exists j: nat :: i < j < |parts| && IsResult(parts[j]) && parts[j].id == parts[i].id && NoTextBetween(parts, i, j)
  }

  lemma {:induction false} ClosedTurnsHaveResults(parts: seq<Part>, n: nat)
    requires n <= |parts|
    requires forall i: nat :: i < |parts| ==> AnsweredInTime(parts, i)
    ensures forall t :: t in TurnsOf(parts[..n]).closed ==> HasResult(t)
  {
    if n > 0 {
      ClosedTurnsHaveResults(parts, n - 1);
      var before := parts[..n - 1];
      assert parts[..n][..n - 1] == before;
      var open := TurnsOf(before).open;
      if parts[n - 1].Text? && HasCall(open) {
        ClosingTextFollowsResult(parts, n - 1);
      }
    }
  }

  /** When a text ends a turn, the turn's calls have been answered. */
  lemma ClosingTextFollowsResult(parts: seq<Part>, n: nat)
    requires n < |parts| && parts[n].Text? && HasCall(TurnsOf(parts[..n]).open)
    requires forall i: nat :: i < |parts| ==> AnsweredInTime(parts, i)
    ensures HasResult(TurnsOf(parts[..n]).open)
  {
    var open := TurnsOf(parts[..n]).open;
    OpenIsSuffix(parts[..n]);
    var m := n - |open|;
    assert open == parts[m..n];
    NoCallsWithoutCall(open);
    AnswerInWindow(parts, m, n);
  }

  lemma NoTextInside(parts: seq<Part>, i: nat, j: nat, n: nat)
    requires i < n < |parts| && NoTextBetween(parts, i, j) && parts[n].Text?
    ensures j <= n
  {
  }

  lemma AnswerInWindow(parts: seq<Part>, m: nat, n: nat)
    requires m <= n < |parts| && parts[n].Text?
    requires exists k :: 0 <= k < |parts[m..n]| && IsCall(parts[m..n][k])
    requires forall i: nat :: i < |parts| ==> AnsweredInTime(parts, i)
    ensures HasResult(parts[m..n])
  {
    var k: nat :| k < |parts[m..n]| && IsCall(parts[m..n][k]);
    assert AnsweredInTime(parts, m + k);
    var j: nat :| m + k < j < |parts| && IsResult(parts[j]) && NoTextBetween(parts, m + k, j);
    NoTextInside(parts, m + k, j, n);
    assert parts[m..n][j - m] == parts[j];
  }

  /** With every result close behind its call and every call answered before the next text, roles alternate. */
  lemma AnsweredCallsAlternate(render: Render, parts: seq<Part>)
    requires forall j: nat :: j < |parts| ==> FollowsItsCall(parts, j)
    requires forall i: nat :: i < |parts| ==> AnsweredInTime(parts, i)
    ensures Alternates(Convert(render, parts))
  {
    assert parts[..|parts|] == parts;
    ClosedTurnsHaveResults(parts, |parts|);
    CloseResultsAnswer(parts);
    var open := TurnsOf(parts).open;
    assert open in AllTurns(parts);
    if HasResult(open) {
      var r :| r in open && IsResult(r);
      var p :| p in open && IsCall(p) && ReplayCallId(p.id) == ReplayCallId(r.id);
      NoCallsWithoutCall(open);
    }
    RolesAlternateIff(render, parts);
  }

  // ----- where both conditions fail -----

  lemma StepsThree(render: Render, a: Part, b: Part, c: Part)
    ensures Steps(render, START, [a, b, c]) == Step(render, Step(render, Step(render, START, a), b), c)
  {
    assert [a, b, c][..2] == [a, b] && [a, b][..1] == [a] && [a][..0] == [];
    assert Steps(render, START, [a]) == Step(render, START, a);
    assert Steps(render, START, [a, b]) == Step(render, Step(render, START, a), b);
  }

  /** A text between a call and its result: the result's message follows the text's, not the call's. */
  lemma TextSeparatesResult(render: Render, input: Json, output: Json)
    ensures var call, result := ToolCall("t", input, "1"), ToolCallResponseJson("t", output, "1");
            var messages := Convert(render, [call, Text("x"), result]);
            && messages == [Assistant([ToCall(call)]), Assistant([TextBlock("x")]), User([ToResult(render, result)])]
            && !Paired(messages) && !Alternates(messages)
  {
    var call, result := ToolCall("t", input, "1"), ToolCallResponseJson("t", output, "1");
    StepsThree(render, call, Text("x"), result);
    var s1 := Step(render, START, call);
    assert s1 == State([], [ToCall(call)], [], true);
    var s2 := Step(render, s1, Text("x"));
    assert s2 == State([Assistant([ToCall(call)])], [TextBlock("x")], [], false);
    var s3 := Step(render, s2, result);
    assert s3 == State([Assistant([ToCall(call)])], [TextBlock("x")], [ToResult(render, result)], false);
    NotPairedNotAlternating([ToCall(call)], "x", ToResult(render, result));
  }

  lemma NotPairedNotAlternating(calls: seq<AssistantContent>, text: string, result: ResultBlock)
    ensures var messages := [Assistant(calls), Assistant([TextBlock(text)]), User([result])];
            !Paired(messages) && !Alternates(messages)
  {
    var messages := [Assistant(calls), Assistant([TextBlock(text)]), User([result])];
    assert result in messages[2].results;
    assert !PairedAt(messages, 2);
    assert !(messages[1].Assistant? <==> 1 % 2 == 0);
  }

  // ----- replayed ids -----

  predicate EndsInSeparator(id: string) {
    id != [] && (id[|id| - 1] == '_' || id[|id| - 1] == '-')
  }

  predicate OnlySeparators(id: string) {
    forall c :: c in id ==> c == '_' || c == '-'
  }

  lemma SeparatorAppended(before: string, c: char)
    requires c == '_' || c == '-'
    ensures OnlySeparators(before + [c]) <==> OnlySeparators(before)
  {
    assert forall d :: d in before + [c] <==> d in before || d == c;
  }

  /** Trimming removes exactly the trailing separators. */
  lemma {:induction false} CallIdIsTrimmed(id: string)
    ensures !EndsInSeparator(ReplayCallId(id))
    ensures ReplayCallId(id) <= id && OnlySeparators(id[|ReplayCallId(id)|..])
    ensures ReplayCallId(id) == [] <==> OnlySeparators(id)
  {
    if EndsInSeparator(id) {
      var before := id[..|id| - 1];
      CallIdIsTrimmed(before);
      var k := |ReplayCallId(id)|;
      assert id[k..] == before[k..] + [id[|id| - 1]];
      assert id == before + [id[|id| - 1]];
      SeparatorAppended(before, id[|id| - 1]);
    } else if id != [] {
      assert id[|id| - 1] in id;
    }
  }

  /**
   * A replayed item id still ends in a separator exactly when the persisted id is nothing but separators:
   * the prefix's own underscore is then left at the end.
   */
  lemma ItemIdEndsInSeparatorIff(id: string)
    ensures EndsInSeparator(ReplayItemId(id)) <==> OnlySeparators(id)
  {
    CallIdIsTrimmed(id);
    var trimmed := ReplayCallId(id);
    if trimmed != [] {
      assert ReplayItemId(id)[|ReplayItemId(id)| - 1] == trimmed[|trimmed| - 1];
    } else {
      assert ReplayItemId(id) == "fc_";
    }
  }

  /** The persisted id `_` is replayed as `fc_`. */
  lemma SeparatorIdExample()
    ensures ReplayItemId("_") == "fc_" && EndsInSeparator(ReplayItemId("_"))
  {
    assert OnlySeparators("_");
    CallIdIsTrimmed("_");
    ItemIdEndsInSeparatorIff("_");
  }
}
