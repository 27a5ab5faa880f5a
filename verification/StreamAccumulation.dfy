/** Accumulating stream deltas (`StreamAccumulator`): how the deltas were cut does not show. */
module StreamAccumulation {
  import opened Outcomes
  import opened Sequences
  import opened Json
  import opened MessageParts

  datatype McpInfo = McpInfo(service: string, toolName: string, displayName: Option<string>)

  datatype ToolResponse =
    | JsonResponse(id: string, json: Json, name: string)
    | ErrResponse(id: string, name: string, description: string)

  datatype StreamPart =
    | Content(delta: string)
    | ThinkingDelta(delta: string)
    | Call(id: string, name: string, json: Json, mcp: Option<McpInfo>)
    | Response(response: ToolResponse)
    | Usage(inputTokens: nat, outputTokens: nat)

  /** The part a stream event persists as, if any. */
  function ToMessagePart(event: StreamPart): Option<Part> {
    match event
    case Content(delta) => if delta != [] then Some(Text(delta)) else None
    case ThinkingDelta(delta) => if delta != [] then Some(Thinking(delta)) else None
    case Call(id, name, json, Some(mcp)) => Some(McpToolCall(mcp.toolName, mcp.service, mcp.displayName, json, id))
    case Call(id, name, json, None) => Some(ToolCall(name, json, id))
    case Response(JsonResponse(id, json, name)) => Some(ToolCallResponseJson(name, json, id))
    case Response(ErrResponse(id, name, description)) => Some(ToolCallErr(name, description, id))
    case Usage(_, _) => None
  }

  function Persisted(events: seq<StreamPart>): seq<Part> {
    if events == [] then []
    else
      var before := Persisted(events[..|events| - 1]);
      match ToMessagePart(events[|events| - 1])
      case Some(part) => before + [part]
      case None => before
  }

  class StreamAccumulator {
    var stored: seq<Part>

    constructor ()
      ensures stored == []
    {
      stored := [];
    }

    /** Stores the event's part unmerged and hands it back for forwarding. */
    method Push(event: StreamPart) returns (forwarded: Option<Part>)
      modifies this
      ensures forwarded == ToMessagePart(event)
      ensures stored == old(stored) + (if forwarded.Some? then [forwarded.value] else [])
    {
      forwarded := ToMessagePart(event);
      match forwarded {
        case Some(part) => stored := stored + [part];
        case None => AppendNothing(stored);
      }
    }

    method Parts() returns (parts: seq<Part>)
      ensures parts == Merge(stored)
    {
      parts := MergeConsecutiveParts(stored);
    }

    /** Reading the raw parts answers for the merged ones. */
    method IsEmpty() returns (empty: bool)
      ensures empty <==> Merge(stored) == []
    {
      MergedHasNoAdjacentRuns(stored);
      empty := stored == [];
    }
  }

  /** Feeding a whole stream accumulates its persistable parts. */
  method Accumulate(events: seq<StreamPart>) returns (parts: seq<Part>)
    ensures parts == Merge(Persisted(events))
  {
    var accumulator := new StreamAccumulator();
    for i := 0 to |events|
      invariant accumulator.stored == Persisted(events[..i])
    {
      assert events[..i + 1][..i] == events[..i];
      var forwarded := accumulator.Push(events[i]);
    }
    assert events[..|events|] == events;
    parts := accumulator.Parts();
  }

  /** The content of a stream, character by character; usage carries none. */
  function StreamAtoms(events: seq<StreamPart>): seq<Atom> {
    if events == [] then []
    else StreamAtoms(events[..|events| - 1]) + EventAtoms(events[|events| - 1])
  }

  function EventAtoms(event: StreamPart): seq<Atom> {
    match event
    case Content(delta) => seq(|delta|, i requires 0 <= i < |delta| => TextChar(delta[i]))
    case ThinkingDelta(delta) => seq(|delta|, i requires 0 <= i < |delta| => ThinkingChar(delta[i]))
    case Call(id, name, json, mcp) =>
      [Whole(if mcp.Some? then McpToolCall(mcp.value.toolName, mcp.value.service, mcp.value.displayName, json, id)
             else ToolCall(name, json, id))]
    case Response(response) =>
      [Whole(if response.JsonResponse? then ToolCallResponseJson(response.name, response.json, response.id)
             else ToolCallErr(response.name, response.description, response.id))]
    case Usage(_, _) => []
  }

  /** What an event persists as has the event's content. */
  lemma EventContent(event: StreamPart)
    ensures match ToMessagePart(event)
            case Some(part) => PartAtoms(part) == EventAtoms(event) && NoEmptyRuns([part])
            case None => EventAtoms(event) == []
  {
  }

  lemma {:induction false} PersistedContent(events: seq<StreamPart>)
    ensures Atoms(Persisted(events)) == StreamAtoms(events)
    ensures NoEmptyRuns(Persisted(events))
  {
    if events != [] {
      var before, last := events[..|events| - 1], events[|events| - 1];
      PersistedContent(before);
      EventContent(last);
      match ToMessagePart(last)
      case Some(part) =>
        AtomsAppend(Persisted(before), [part]);
        AtomsOfOne(part);
      case None => AppendNothing(StreamAtoms(before));
    }
  }

  /** What is accumulated is the content of the stream: nothing added, lost, altered or moved. */
  lemma AccumulationKeepsContent(events: seq<StreamPart>)
    ensures Atoms(Merge(Persisted(events))) == StreamAtoms(events)
    ensures NoAdjacentRuns(Merge(Persisted(events))) && NoEmptyRuns(Merge(Persisted(events)))
  {
    PersistedContent(events);
    MergeKeepsContent(Persisted(events));
    MergeKeepsNonEmpty(Persisted(events));
    MergedHasNoAdjacentRuns(Persisted(events));
  }

  /**
   * Accumulation sees only content: two streams accumulate to the same parts if and only if they carry
   * the same characters of text and thinking and the same calls and responses, in the same order,
   * however the deltas were split and wherever usage or empty deltas fell.
   */
  lemma AccumulationSeesOnlyContent(s: seq<StreamPart>, t: seq<StreamPart>)
    ensures Merge(Persisted(s)) == Merge(Persisted(t)) <==> StreamAtoms(s) == StreamAtoms(t)
  {
    AccumulationKeepsContent(s);
    AccumulationKeepsContent(t);
    if StreamAtoms(s) == StreamAtoms(t) {
      ContentDeterminesMerged(Merge(Persisted(s)), Merge(Persisted(t)));
    }
  }
}
