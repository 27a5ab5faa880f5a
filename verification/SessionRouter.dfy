/** Attribution of recorded JSON-RPC lines to sessions (`SessionRouter`). */
module SessionRouter {
  import opened Outcomes
  import opened StringOrder

  /**
   * One recorded line. `Parsed` keeps the parts the router looks at: whether the content has a method,
   * its JSON-RPC id, `params.sessionId` and `result.sessionId`.
   */
  datatype Line =
    | Unparsed(text: string)
    | Parsed(text: string, direction: string, isCall: bool, id: Option<string>,
             session: Option<string>, minted: Option<string>)

  datatype Append = Shared(line: Line) | Session(sessionId: string, line: Line)

  datatype Pending = Attributed(sessionId: string) | Unattributed(request: Line)

  type PendingMap = map<string, Pending>

  const TO_SERVER := "to_server"
  const TO_RUNTIME := "to_runtime"

  function Opposite(direction: string): string {
    if direction == TO_SERVER then TO_RUNTIME else TO_SERVER
  }

  function Key(direction: string, id: string): string {
    direction + ":" + id
  }

  predicate IsRequest(line: Line) {
    line.Parsed? && line.isCall && line.id.Some?
  }

  predicate IsResponse(line: Line) {
    line.Parsed? && !line.isCall && line.id.Some?
  }

  function RequestKey(line: Line): string
    requires IsRequest(line)
  {
    Key(line.direction, line.id.value)
  }

  /** The pending key a response looks up: its issuer is the opposite direction. */
  function AnswerKey(line: Line): string
    requires IsResponse(line)
  {
    Key(Opposite(line.direction), line.id.value)
  }

  function EntryFor(request: Line): Pending
    requires IsRequest(request)
  {
    match request.session
    case Some(sessionId) => Attributed(sessionId)
    case None => Unattributed(request)
  }

  /** Where a response goes, given the request it answers, if one is pending. */
  function Answer(entry: Option<Pending>, line: Line): seq<Append>
    requires IsResponse(line)
  {
    match entry
    case Some(Attributed(sessionId)) => [Session(sessionId, line)]
    case Some(Unattributed(request)) =>
      (match line.minted
       case Some(minted) => [Session(minted, request), Session(minted, line)]
       case None => [Shared(request), Shared(line)])
    case None => [Shared(line)]
  }

  function Lookup(pending: PendingMap, key: string): Option<Pending> {
    if key in pending then Some(pending[key]) else None
  }

  /** What `route` returns for a line. */
  function Routed(pending: PendingMap, line: Line): seq<Append> {
    if IsRequest(line) then (if line.session.Some? then [Session(line.session.value, line)] else [])
    else if IsResponse(line) then Answer(Lookup(pending, AnswerKey(line)), line)
    else if line.Parsed? && line.isCall && line.session.Some? then [Session(line.session.value, line)]
    else [Shared(line)]
  }

  /** The pending map after a line. */
  function After(pending: PendingMap, line: Line): PendingMap {
    if IsRequest(line) then pending[RequestKey(line) := EntryFor(line)]
    else if IsResponse(line) then pending - {AnswerKey(line)}
    else pending
  }

  /** Request lines still held back, in key order. */
  function Leftovers(pending: PendingMap, keys: seq<string>): seq<Append> {
    if keys == [] then []
    else
      (match Lookup(pending, keys[0])
       case Some(Unattributed(request)) => [Shared(request)]
       case _ => [])
      + Leftovers(pending, keys[1..])
  }

  ghost predicate Enumerates(keys: seq<string>, pending: PendingMap) {
    && (forall k :: k in keys <==> k in pending)
    && DistinctKeys(Itself, keys)
  }

  /** Draining is deterministic: the hash map's enumeration order does not show. */
  lemma DrainIsDeterministic(pending: PendingMap, keys: seq<string>, others: seq<string>)
    requires Enumerates(keys, pending) && Enumerates(others, pending)
    ensures Leftovers(pending, SortBy(Itself, keys)) == Leftovers(pending, SortBy(Itself, others))
  {
    SortForgetsOrder(Itself, keys, others);
  }

  class Router {
    var pending: PendingMap

    constructor ()
      ensures pending == map[]
    {
      pending := map[];
    }

    method Route(line: Line) returns (appends: seq<Append>)
      modifies this
      ensures appends == Routed(old(pending), line)
      ensures pending == After(old(pending), line)
    {
      if line.Unparsed? {
        return [Shared(line)];
      }
      if line.isCall {
        if line.id.Some? {
          var key := Key(line.direction, line.id.value);
          match line.session {
            case Some(sessionId) =>
              pending := pending[key := Attributed(sessionId)];
              return [Session(sessionId, line)];
            case None =>
              pending := pending[key := Unattributed(line)];
              return [];
          }
        }
        match line.session {
          case Some(sessionId) => return [Session(sessionId, line)];
          case None => return [Shared(line)];
        }
      }
      if line.id.Some? {
        var key := Key(Opposite(line.direction), line.id.value);
        var removed := Lookup(pending, key);
        pending := pending - {key};
        match removed {
          case Some(Attributed(sessionId)) => return [Session(sessionId, line)];
          case Some(Unattributed(request)) =>
            match line.minted {
              case Some(minted) => return [Session(minted, request), Session(minted, line)];
              case None => return [Shared(request), Shared(line)];
            }
          case None => return [Shared(line)];
        }
      }
      return [Shared(line)];
    }

    /** Gives back the requests still waiting, sorted by pending key, and forgets everything pending. */
    method Drain() returns (appends: seq<Append>)
      modifies this
      ensures pending == map[]
      ensures forall keys :: Enumerates(keys, old(pending)) ==> appends == Leftovers(old(pending), SortBy(Itself, keys))
    {
      var taken := pending;
      pending := map[];
      var keys: seq<string> := [];
      var rest := taken.Keys;
      while rest != {}
        invariant rest <= taken.Keys
        invariant forall k :: k in keys <==> k in taken && k !in rest
        invariant DistinctKeys(Itself, keys)
        decreases rest
      {
        var key :| key in rest;
        keys := keys + [key];
        rest := rest - {key};
      }
      var sorted := SortBy(Itself, keys);
      appends := [];
      var i := |sorted|;
      while i > 0
        invariant 0 <= i <= |sorted|
        invariant appends == Leftovers(taken, sorted[i..])
      {
        i := i - 1;
        assert sorted[i..][1..] == sorted[i + 1..];
        match Lookup(taken, sorted[i]) {
          case Some(Unattributed(request)) => appends := [Shared(request)] + appends;
          case _ =>
        }
      }
      assert sorted[0..] == sorted;
      forall others | Enumerates(others, taken) ensures appends == Leftovers(taken, SortBy(Itself, others)) {
        DrainIsDeterministic(taken, keys, others);
      }
    }
  }
}
