/** Rebuilding provider turns from a flat list of parts (`convert_assistant`). */
module Replay {
  import opened Outcomes
  import opened Sequences
  import opened Json
  import opened MessageParts

  datatype AssistantContent =
    | TextBlock(text: string)
    | CallBlock(itemId: string, callId: string, name: string, input: Json)

  datatype ResultBlock = ResultBlock(itemId: string, callId: string, text: string)

  datatype Message = Assistant(content: seq<AssistantContent>) | User(results: seq<ResultBlock>)

  /** How a JSON payload is written out; serialization itself is not part of this model. */
  type Render = Json -> string

  predicate IsSeparator(c: char) {
    c == '_' || c == '-'
  }

  function ReplayCallId(id: string): string {
    if id != [] && IsSeparator(id[|id| - 1]) then ReplayCallId(id[..|id| - 1]) else id
  }

  function ReplayItemId(id: string): string {
    "fc_" + ReplayCallId(id)
  }

  predicate IsCall(part: Part) {
    part.ToolCall? || part.McpToolCall?
  }

  predicate IsResult(part: Part) {
    part.ToolCallResponseJson? || part.ToolCallErr?
  }

  function CoerceInput(json: Json): Json {
    if json.JsonObject? then json else JsonObject(map[])
  }

  function ToCall(part: Part): AssistantContent
    requires IsCall(part)
  {
    CallBlock(ReplayItemId(part.id), ReplayCallId(part.id), part.name, CoerceInput(part.json))
  }

  function ToResult(render: Render, part: Part): ResultBlock
    requires IsResult(part)
  {
    ResultBlock(ReplayItemId(part.id), ReplayCallId(part.id),
                if part.ToolCallErr? then part.description else render(part.json))
  }

  // ----- the loop, as a function of its state -----

  datatype State = State(out: seq<Message>, assistant: seq<AssistantContent>, results: seq<ResultBlock>, sawCall: bool)

  const START := State([], [], [], false)

  function TurnMessages(assistant: seq<AssistantContent>, results: seq<ResultBlock>): seq<Message> {
    (if assistant != [] then [Assistant(assistant)] else []) + (if results != [] then [User(results)] else [])
  }

  function Flushed(s: State): State {
    State(s.out + TurnMessages(s.assistant, s.results), [], [], false)
  }

  function AppendText(assistant: seq<AssistantContent>, text: string): seq<AssistantContent> {
    var last := |assistant| - 1;
    if assistant != [] && assistant[last].TextBlock?
    then assistant[..last] + [TextBlock(assistant[last].text + text)]
    else assistant + [TextBlock(text)]
  }

  function Step(render: Render, s: State, part: Part): State {
    match part
    case Text(text) =>
      var ready := if s.sawCall then Flushed(s) else s;
      ready.(assistant := AppendText(ready.assistant, text))
    case ToolCall(_, _, _) => s.(assistant := s.assistant + [ToCall(part)], sawCall := true)
    case McpToolCall(_, _, _, _, _) => s.(assistant := s.assistant + [ToCall(part)], sawCall := true)
    case ToolCallResponseJson(_, _, _) => s.(results := s.results + [ToResult(render, part)])
    case ToolCallErr(_, _, _) => s.(results := s.results + [ToResult(render, part)])
    case Thinking(_) => s
  }

  function Steps(render: Render, s: State, parts: seq<Part>): State {
    if parts == [] then s else Step(render, Steps(render, s, parts[..|parts| - 1]), parts[|parts| - 1])
  }

  function Convert(render: Render, parts: seq<Part>): seq<Message> {
    Flushed(Steps(render, START, parts)).out
  }

  method Flush(out: seq<Message>, assistant: seq<AssistantContent>, results: seq<ResultBlock>)
    returns (flushed: seq<Message>)
    ensures flushed == out + TurnMessages(assistant, results)
  {
    flushed := out;
    if assistant != [] {
      flushed := flushed + [Assistant(assistant)];
    }
    if results != [] {
      flushed := flushed + [User(results)];
    }
  }

  method ConvertAssistant(render: Render, parts: seq<Part>) returns (out: seq<Message>)
    ensures out == Convert(render, parts)
  {
    out := [];
    var assistantParts: seq<AssistantContent> := [];
    var toolResults: seq<ResultBlock> := [];
    var sawToolCall := false;
    for i := 0 to |parts|
      invariant State(out, assistantParts, toolResults, sawToolCall) == Steps(render, START, parts[..i])
    {
      assert parts[..i + 1][..i] == parts[..i];
      var part := parts[i];
      match part {
        case Text(text) =>
          if sawToolCall {
            out := Flush(out, assistantParts, toolResults);
            assistantParts, toolResults, sawToolCall := [], [], false;
          }
          var last := |assistantParts| - 1;
          if assistantParts != [] && assistantParts[last].TextBlock? {
            assistantParts := assistantParts[last := TextBlock(assistantParts[last].text + text)];
          } else {
            assistantParts := assistantParts + [TextBlock(text)];
          }
        case ToolCall(name, json, id) =>
          sawToolCall := true;
          assistantParts := assistantParts + [CallBlock(ReplayItemId(id), ReplayCallId(id), name, CoerceInput(json))];
        case McpToolCall(name, _, _, json, id) =>
          sawToolCall := true;
          assistantParts := assistantParts + [CallBlock(ReplayItemId(id), ReplayCallId(id), name, CoerceInput(json))];
        case ToolCallResponseJson(_, json, id) =>
          toolResults := toolResults + [ResultBlock(ReplayItemId(id), ReplayCallId(id), render(json))];
        case ToolCallErr(_, description, id) =>
          toolResults := toolResults + [ResultBlock(ReplayItemId(id), ReplayCallId(id), description)];
        case Thinking(_) =>
      }
    }
    assert parts[..|parts|] == parts;
    out := Flush(out, assistantParts, toolResults);
  }

  // ----- replaying merged parts -----

  lemma AppendTextTwice(assistant: seq<AssistantContent>, a: string, b: string)
    ensures AppendText(AppendText(assistant, a), b) == AppendText(assistant, a + b)
  {
    var once := AppendText(assistant, a);
    assert once[|once| - 1].TextBlock?;
    if assistant != [] && assistant[|assistant| - 1].TextBlock? {
      var before := assistant[..|assistant| - 1];
      assert once[..|once| - 1] == before;
      AppendIsAssociative(assistant[|assistant| - 1].text, a, b);
    } else {
      assert once[..|once| - 1] == assistant;
    }
  }

  /** Two parts that join are replayed like their join. */
  lemma StepJoined(render: Render, s: State, a: Part, b: Part)
    requires Joins(a, b)
    ensures Step(render, Step(render, s, a), b) == Step(render, s, Join(a, b))
  {
    if a.Text? {
      var ready := if s.sawCall then Flushed(s) else s;
      AppendTextTwice(ready.assistant, a.text, b.text);
    }
  }

  lemma StepsSnoc(render: Render, s: State, parts: seq<Part>, part: Part)
    ensures Steps(render, s, parts + [part]) == Step(render, Steps(render, s, parts), part)
  {
    assert (parts + [part])[..|parts|] == parts;
  }

  lemma StepsPush(render: Render, s: State, merged: seq<Part>, part: Part)
    ensures Steps(render, s, Push(merged, part)) == Step(render, Steps(render, s, merged), part)
  {
    if merged == [] {
      StepsSnoc(render, s, [], part);
      assert [] + [part] == [part];
    } else {
      var before, last := merged[..|merged| - 1], merged[|merged| - 1];
      assert merged == before + [last];
      PushOnto(before, last, part);
      StepsSnoc(render, s, before, last);
      if Joins(last, part) {
        StepsSnoc(render, s, before, Join(last, part));
        StepJoined(render, Steps(render, s, before), last, part);
      } else {
        StepsSnoc(render, s, merged, part);
      }
    }
  }

  lemma {:induction false} StepsMerged(render: Render, s: State, parts: seq<Part>)
    ensures Steps(render, s, Merge(parts)) == Steps(render, s, parts)
  {
    if parts != [] {
      var before, last := parts[..|parts| - 1], parts[|parts| - 1];
      StepsMerged(render, s, before);
      StepsPush(render, s, Merge(before), last);
    }
  }

  /** Merging commutes with replay, also for text runs separated by thinking. */
  lemma ReplayOfMerged(render: Render, parts: seq<Part>)
    ensures Convert(render, Merge(parts)) == Convert(render, parts)
  {
    StepsMerged(render, START, parts);
  }

  // ----- turns, stated over the parts -----

  predicate HasCall(parts: seq<Part>) {
    exists p :: p in parts && IsCall(p)
  }

  predicate HasResult(parts: seq<Part>) {
    exists p :: p in parts && IsResult(p)
  }

  /** A turn ends before a text that follows a call; `open` is the turn still being collected. */
  datatype Turns = Turns(closed: seq<seq<Part>>, open: seq<Part>)

  function TurnsOf(parts: seq<Part>): Turns {
    if parts == [] then Turns([], [])
    else
      var before, last := TurnsOf(parts[..|parts| - 1]), parts[|parts| - 1];
      if last.Text? && HasCall(before.open) then Turns(before.closed + [before.open], [last])
      else Turns(before.closed, before.open + [last])
  }

  /** The text of a turn, in one block, if it has any text part. */
  function TurnText(turn: seq<Part>): Option<string> {
    if turn == [] then None
    else
      var before, last := TurnText(turn[..|turn| - 1]), turn[|turn| - 1];
      if !last.Text? then before
      else Some((match before case Some(text) => text case None => []) + last.text)
  }

  function TextBlocks(text: Option<string>): seq<AssistantContent> {
    match text
    case Some(t) => [TextBlock(t)]
    case None => []
  }

  function TurnCalls(turn: seq<Part>): seq<AssistantContent> {
    if turn == [] then []
    else
      var last := turn[|turn| - 1];
      TurnCalls(turn[..|turn| - 1]) + if IsCall(last) then [ToCall(last)] else []
  }

  function TurnResults(render: Render, turn: seq<Part>): seq<ResultBlock> {
    if turn == [] then []
    else
      var last := turn[|turn| - 1];
      TurnResults(render, turn[..|turn| - 1]) + if IsResult(last) then [ToResult(render, last)] else []
  }

  function TurnContent(turn: seq<Part>): seq<AssistantContent> {
    TextBlocks(TurnText(turn)) + TurnCalls(turn)
  }

  /** What a turn replays as: its text and calls, then its results. */
  function EmitTurn(render: Render, turn: seq<Part>): seq<Message> {
    TurnMessages(TurnContent(turn), TurnResults(render, turn))
  }

  function EmitTurns(render: Render, turns: seq<seq<Part>>): seq<Message> {
    if turns == [] then []
    else EmitTurns(render, turns[..|turns| - 1]) + EmitTurn(render, turns[|turns| - 1])
  }

  lemma {:induction false} NoCallsWithoutCall(turn: seq<Part>)
    ensures HasCall(turn) <==> TurnCalls(turn) != []
    ensures HasCall(turn) <==> exists i :: 0 <= i < |turn| && IsCall(turn[i])
  {
    if turn != [] {
      var n := |turn| - 1;
      NoCallsWithoutCall(turn[..n]);
      assert forall p :: p in turn <==> p in turn[..n] || p == turn[n];
    }
  }

  lemma TurnSnoc(render: Render, turn: seq<Part>, part: Part)
    ensures TurnCalls(turn + [part]) == TurnCalls(turn) + if IsCall(part) then [ToCall(part)] else []
    ensures TurnResults(render, turn + [part])
            == TurnResults(render, turn) + if IsResult(part) then [ToResult(render, part)] else []
    ensures TurnText(turn + [part]) ==
            if !part.Text? then TurnText(turn)
            else Some((match TurnText(turn) case Some(text) => text case None => []) + part.text)
  {
    assert (turn + [part])[..|turn|] == turn;
  }

  /** A text extends the turn's block while no call has followed it. */
  lemma TextToTurn(turn: seq<Part>, text: string)
    requires TurnCalls(turn) == []
    ensures AppendText(TurnContent(turn), text) == TurnContent(turn + [Text(text)])
  {
    var before := TurnText(turn);
    TurnSnoc(_ => [], turn, Text(text));
    AppendNothing(TextBlocks(before));
    AppendNothing(TextBlocks(TurnText(turn + [Text(text)])));
    assert [] + text == text;
    assert TextBlocks(before) != [] ==> TextBlocks(before)[..0] == [];
  }

  ghost function StateFor(render: Render, turns: Turns): State {
    State(EmitTurns(render, turns.closed), TurnContent(turns.open),
          TurnResults(render, turns.open), HasCall(turns.open))
  }

  /** The loop's state is the turns so far: closed ones emitted, the open one collected. */
  lemma {:induction false} StateIsTurns(render: Render, parts: seq<Part>)
    ensures Steps(render, START, parts) == StateFor(render, TurnsOf(parts))
  {
    if parts != [] {
      var before, last := parts[..|parts| - 1], parts[|parts| - 1];
      StateIsTurns(render, before);
      var turns := TurnsOf(before);
      if last.Text? && HasCall(turns.open) {
        StepCloses(render, turns, last);
      } else {
        StepExtends(render, turns, last);
      }
    }
  }

  lemma StepCloses(render: Render, turns: Turns, part: Part)
    requires part.Text? && HasCall(turns.open)
    ensures Step(render, StateFor(render, turns), part) == StateFor(render, Turns(turns.closed + [turns.open], [part]))
  {
    EmitOneMore(render, turns.closed, turns.open);
    TextStartsTurn(part);
    TurnOfText(render, part);
  }

  lemma EmitOneMore(render: Render, turns: seq<seq<Part>>, turn: seq<Part>)
    ensures EmitTurns(render, turns + [turn]) == EmitTurns(render, turns) + EmitTurn(render, turn)
  {
    assert (turns + [turn])[..|turns|] == turns;
  }

  lemma TextStartsTurn(part: Part)
    requires part.Text?
    ensures AppendText([], part.text) == TurnContent([part])
  {
    var text: string := [];
    assert [part][..0] == [] && text + part.text == part.text;
    assert TurnText([part]) == Some(part.text);
    assert TurnCalls([part]) == [];
  }

  lemma TurnOfText(render: Render, part: Part)
    requires part.Text?
    ensures TurnResults(render, [part]) == [] && !HasCall([part])
  {
    assert [part][..0] == [];
  }

  lemma StepExtends(render: Render, turns: Turns, part: Part)
    requires !(part.Text? && HasCall(turns.open))
    ensures Step(render, StateFor(render, turns), part) == StateFor(render, Turns(turns.closed, turns.open + [part]))
  {
    NoCallsWithoutCall(turns.open);
    TurnSnoc(render, turns.open, part);
    HasCallSnoc(turns.open, part);
    AppendNothing(TurnCalls(turns.open));
    AppendNothing(TurnResults(render, turns.open));
    if part.Text? {
      TextToTurn(turns.open, part.text);
    } else if IsCall(part) {
      AppendIsAssociative(TextBlocks(TurnText(turns.open)), TurnCalls(turns.open), [ToCall(part)]);
    }
  }

  lemma HasCallSnoc(turn: seq<Part>, part: Part)
    ensures HasCall(turn + [part]) <==> HasCall(turn) || IsCall(part)
  {
    assert forall p :: p in turn + [part] <==> p in turn || p == part;
    assert part in turn + [part];
  }

  /** All turns of a message, in order. */
  function AllTurns(parts: seq<Part>): seq<seq<Part>> {
    TurnsOf(parts).closed + [TurnsOf(parts).open]
  }

  /** Replay emits each turn separately: its text and calls, then its results. */
  lemma ReplayIsByTurns(render: Render, parts: seq<Part>)
    ensures Convert(render, parts) == EmitTurns(render, AllTurns(parts))
  {
    StateIsTurns(render, parts);
    var turns := TurnsOf(parts);
    assert AllTurns(parts)[..|turns.closed|] == turns.closed;
  }
}
